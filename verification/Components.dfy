/**
 Strongly connected components by two depth-first passes: a finish order over
 the edges, then a sweep of the reversed edges in reverse finish order.
 */
module Components {
  import opened Graphs

  type Adjacency<N> = map<N, seq<N>>

  function GraphOf<N>(adjacency: Adjacency<N>): Graph<N> {
    map n | n in adjacency :: set m | m in adjacency[n]
  }

  ghost predicate WellFormed<N(!new)>(adjacency: Adjacency<N>) {
    forall n, m :: n in adjacency && m in adjacency[n] ==> m in adjacency
  }

  ghost predicate Distinct<N(!new)>(s: seq<N>) {
    forall i, j :: 0 <= i < j < |s| ==> s[i] != s[j]
  }

  // The property of a finish order the sweep relies on: an edge to a node that
  // finishes later means that node reaches everything finished in between.
  ghost predicate FinishesSoundly<N(!new)>(g: Graph<N>, order: seq<N>) {
    forall i, j, k :: 0 <= i <= k <= j < |order| && Edge(g, order[i], order[j]) ==> Reaches(g, order[j], order[k])
  }

  // A depth-first walk in progress: the finished nodes, the stack of open ones
  // with their next edge, and for every visited node how many nodes had
  // finished when it was opened.
  datatype Walk<N> = Walk(order: seq<N>, stack: seq<(N, nat)>, marks: map<N, nat>)

  // The visited nodes are exactly the finished and the open ones, each once.
  ghost predicate Placed<N(!new)>(w: Walk<N>) {
    && Distinct(w.order)
    && (forall i, j :: 0 <= i < j < |w.stack| ==> w.stack[i].0 != w.stack[j].0)
    && (forall j :: 0 <= j < |w.stack| ==> w.stack[j].0 in w.marks && w.stack[j].0 !in w.order)
    && (forall n :: n in w.order ==> n in w.marks)
    && (forall n :: n in w.marks ==> w.marks[n] <= |w.order| && (n in w.order || OnStack(w.stack, n)))
  }

  ghost predicate OnStack<N(!new)>(stack: seq<(N, nat)>, n: N) {
    exists i :: 0 <= i < |stack| && stack[i].0 == n
  }

  ghost predicate OpenAt<N(!new)>(adjacency: Adjacency<N>, w: Walk<N>, i: nat)
    requires i < |w.stack|
  {
    var (n, next) := w.stack[i];
    && n in adjacency && n in w.marks
    && next <= |adjacency[n]|
    && (forall l :: 0 <= l < next ==> adjacency[n][l] in w.marks)
    && (forall j :: i <= j < |w.stack| ==> Reaches(GraphOf(adjacency), n, w.stack[j].0))
    && (forall k :: w.marks[n] <= k < |w.order| ==> Reaches(GraphOf(adjacency), n, w.order[k]))
  }

  ghost predicate FinishedAt<N(!new)>(adjacency: Adjacency<N>, w: Walk<N>, i: nat)
    requires i < |w.order|
  {
    var n := w.order[i];
    && n in adjacency && n in w.marks && w.marks[n] <= i
    && (forall l :: 0 <= l < |adjacency[n]| ==> adjacency[n][l] in w.marks && w.marks[adjacency[n][l]] <= i)
    && (forall k :: w.marks[n] <= k <= i ==> Reaches(GraphOf(adjacency), n, w.order[k]))
  }

  ghost predicate Open<N(!new)>(adjacency: Adjacency<N>, w: Walk<N>) {
    forall i {:trigger OpenAt(adjacency, w, i)} :: 0 <= i < |w.stack| ==> OpenAt(adjacency, w, i)
  }

  ghost predicate Finished<N(!new)>(adjacency: Adjacency<N>, w: Walk<N>) {
    forall i {:trigger FinishedAt(adjacency, w, i)} :: 0 <= i < |w.order| ==> FinishedAt(adjacency, w, i)
  }

  ghost predicate Sound<N(!new)>(adjacency: Adjacency<N>, w: Walk<N>) {
    Placed(w) && Open(adjacency, w) && Finished(adjacency, w)
  }

  ghost function Push<N(!new)>(w: Walk<N>, n: N): Walk<N> {
    Walk(w.order, w.stack + [(n, 0)], w.marks[n := |w.order|])
  }

  ghost function Advance<N(!new)>(w: Walk<N>, at: nat): Walk<N>
    requires at < |w.stack|
  {
    w.(stack := w.stack[at := (w.stack[at].0, w.stack[at].1 + 1)])
  }

  ghost function Pop<N(!new)>(w: Walk<N>): Walk<N>
    requires w.stack != []
  {
    var top := |w.stack| - 1;
    w.(stack := w.stack[..top], order := w.order + [w.stack[top].0])
  }

  lemma PushIsSound<N(!new)>(adjacency: Adjacency<N>, w: Walk<N>, n: N)
    requires Sound(adjacency, w) && n in adjacency && n !in w.marks
    requires w.stack == [] || Edge(GraphOf(adjacency), w.stack[|w.stack| - 1].0, n)
    ensures Sound(adjacency, Push(w, n))
  {
    var g, v := GraphOf(adjacency), Push(w, n);
    PushIsPlaced(w, n);
    ReachesSelf(g, n);
    forall i: nat | i < |v.stack| ensures OpenAt(adjacency, v, i) {
      if i < |w.stack| {
        var top := |w.stack| - 1;
        assert OpenAt(adjacency, w, i);
        assert Reaches(g, w.stack[i].0, w.stack[top].0);
        ReachesEdge(g, w.stack[top].0, n);
        ReachesTransitive(g, w.stack[i].0, w.stack[top].0, n);
      }
    }
    forall i: nat | i < |v.order| ensures FinishedAt(adjacency, v, i) {
      assert FinishedAt(adjacency, w, i);
    }
  }

  lemma PushIsPlaced<N(!new)>(w: Walk<N>, n: N)
    requires Placed(w) && n !in w.marks
    ensures Placed(Push(w, n))
  {
    var v := Push(w, n);
    assert v.stack[|w.stack|].0 == n;
    forall m | m in v.marks && m !in v.order ensures OnStack(v.stack, m) {
      if m != n {
        var i :| 0 <= i < |w.stack| && w.stack[i].0 == m;
        assert v.stack[i].0 == m;
      }
    }
  }

  lemma AdvanceIsSound<N(!new)>(adjacency: Adjacency<N>, w: Walk<N>, at: nat)
    requires Sound(adjacency, w) && at < |w.stack|
    requires var (n, next) := w.stack[at];
      n in adjacency && next < |adjacency[n]| && adjacency[n][next] in w.marks
    ensures Sound(adjacency, Advance(w, at))
  {
    var v := Advance(w, at);
    forall m | m in v.marks && m !in v.order ensures OnStack(v.stack, m) {
      var i :| 0 <= i < |w.stack| && w.stack[i].0 == m;
      assert v.stack[i].0 == m;
    }
    forall i: nat | i < |v.stack| ensures OpenAt(adjacency, v, i) {
      assert OpenAt(adjacency, w, i);
    }
    forall i: nat | i < |v.order| ensures FinishedAt(adjacency, v, i) {
      assert FinishedAt(adjacency, w, i);
    }
  }

  lemma PopIsSound<N(!new)>(adjacency: Adjacency<N>, w: Walk<N>)
    requires Sound(adjacency, w) && w.stack != []
    requires var (n, next) := w.stack[|w.stack| - 1]; n in adjacency && next == |adjacency[n]|
    ensures Sound(adjacency, Pop(w))
  {
    var v, top := Pop(w), |w.stack| - 1;
    var n := w.stack[top].0;
    PopIsPlaced(w);
    ReachesSelf(GraphOf(adjacency), n);
    forall i: nat | i < |v.stack| ensures OpenAt(adjacency, v, i) {
      assert OpenAt(adjacency, w, i);
      assert Reaches(GraphOf(adjacency), w.stack[i].0, w.stack[top].0);
    }
    forall i: nat | i < |v.order| ensures FinishedAt(adjacency, v, i) {
      if i < |w.order| {
        assert FinishedAt(adjacency, w, i);
      } else {
        assert OpenAt(adjacency, w, top);
      }
    }
  }

  lemma PopIsPlaced<N(!new)>(w: Walk<N>)
    requires Placed(w) && w.stack != []
    ensures Placed(Pop(w))
  {
    var v, top := Pop(w), |w.stack| - 1;
    var n := w.stack[top].0;
    assert v.order[|w.order|] == n;
    forall m | m in v.order ensures m == n || m in w.order {}
    forall m | m in v.marks && m !in v.order ensures OnStack(v.stack, m) {
      assert m !in w.order by { assert forall i :: 0 <= i < |w.order| ==> v.order[i] == w.order[i]; }
      var i :| 0 <= i < |w.stack| && w.stack[i].0 == m;
      assert v.stack[i].0 == m;
    }
  }

  // Open the unvisited target of the top node's next edge.
  ghost function Descend<N(!new)>(w: Walk<N>, target: N): Walk<N>
    requires w.stack != []
  {
    Push(Advance(w, |w.stack| - 1), target)
  }

  lemma DescendIsSound<N(!new)>(adjacency: Adjacency<N>, w: Walk<N>, target: N)
    requires Sound(adjacency, w) && w.stack != [] && target in adjacency && target !in w.marks
    requires var (n, next) := w.stack[|w.stack| - 1];
      n in adjacency && next < |adjacency[n]| && adjacency[n][next] == target
    ensures Sound(adjacency, Descend(w, target))
  {
    var top := |w.stack| - 1;
    PushIsSound(adjacency, w, target);
    var v := Push(w, target);
    assert v.stack[top] == w.stack[top];
    AdvanceIsSound(adjacency, v, top);
    assert Advance(v, top).stack == Advance(w, top).stack + [(target, 0)];
  }

  lemma FinishedWalk<N(!new)>(adjacency: Adjacency<N>, w: Walk<N>)
    requires Sound(adjacency, w) && w.stack == []
    ensures FinishesSoundly(GraphOf(adjacency), w.order)
  {
    var g := GraphOf(adjacency);
    forall i, j, k | 0 <= i <= k <= j < |w.order| && Edge(g, w.order[i], w.order[j])
      ensures Reaches(g, w.order[j], w.order[k])
    {
      var l :| 0 <= l < |adjacency[w.order[i]]| && adjacency[w.order[i]][l] == w.order[j];
      assert FinishedAt(adjacency, w, i) && FinishedAt(adjacency, w, j);
    }
  }

  lemma TopIsOpen<N(!new)>(adjacency: Adjacency<N>, w: Walk<N>)
    requires Sound(adjacency, w) && w.stack != []
    ensures var (n, next) := w.stack[|w.stack| - 1]; n in adjacency && next <= |adjacency[n]|
  {
    assert OpenAt(adjacency, w, |w.stack| - 1);
  }

  lemma OnlyNodesFinish<N(!new)>(adjacency: Adjacency<N>, w: Walk<N>)
    requires Sound(adjacency, w)
    ensures forall n :: n in w.order ==> n in adjacency
  {
    forall n | n in w.order ensures n in adjacency {
      var i :| 0 <= i < |w.order| && w.order[i] == n;
      assert FinishedAt(adjacency, w, i);
    }
  }

  // One search from an unvisited root, with an explicit stack of open nodes.
  method Explore<N(==,!new)>(root: N, adjacency: Adjacency<N>, visited: set<N>, order: seq<N>, ghost before: Walk<N>)
      returns (visited': set<N>, order': seq<N>, ghost after: Walk<N>)
    requires WellFormed(adjacency) && root in adjacency && root !in visited
    requires before == Walk(order, [], before.marks) && visited == before.marks.Keys
    requires Sound(adjacency, before)
    ensures after == Walk(order', [], after.marks) && visited' == after.marks.Keys
    ensures Sound(adjacency, after)
    ensures visited + {root} <= visited'
  {
    PushIsSound(adjacency, before, root);
    visited', order', after := visited + {root}, order, Push(before, root);
    var stack: seq<(N, nat)> := [(root, 0)];
    while stack != []
      invariant after == Walk(order', stack, after.marks) && visited' == after.marks.Keys
      invariant Sound(adjacency, after)
      invariant visited + {root} <= visited'
      decreases adjacency.Keys - visited', |stack|, Unread(adjacency, stack)
    {
      TopIsOpen(adjacency, after);
      var top := |stack| - 1;
      var (node, next) := stack[top];
      if next < |adjacency[node]| {
        var target := adjacency[node][next];
        assert target in adjacency[node];
        stack := stack[top := (node, next + 1)];
        if target !in visited' {
          DescendIsSound(adjacency, after, target);
          after := Descend(after, target);
          visited', stack := visited' + {target}, stack + [(target, 0)];
        } else {
          AdvanceIsSound(adjacency, after, top);
          after := Advance(after, top);
        }
      } else {
        PopIsSound(adjacency, after);
        after := Pop(after);
        stack, order' := stack[..top], order' + [node];
      }
    }
  }

  // Every node in order of completion of a depth-first search from each root.
  method DepthFirstFinishOrder<N(==,!new)>(roots: seq<N>, adjacency: Adjacency<N>) returns (order: seq<N>)
    requires WellFormed(adjacency)
    requires forall n :: n in adjacency <==> n in roots
    ensures Distinct(order)
    ensures forall n :: n in order <==> n in adjacency
    ensures FinishesSoundly(GraphOf(adjacency), order)
  {
    var visited: set<N> := {};
    order := [];
    ghost var walk: Walk<N> := Walk([], [], map[]);
    for r := 0 to |roots|
      invariant walk == Walk(order, [], walk.marks) && visited == walk.marks.Keys
      invariant Sound(adjacency, walk)
      invariant forall i :: 0 <= i < r ==> roots[i] in visited
    {
      if roots[r] !in visited {
        visited, order, walk := Explore(roots[r], adjacency, visited, order, walk);
      }
    }
    FinishedWalk(adjacency, walk);
    OnlyNodesFinish(adjacency, walk);
    forall n | n in adjacency ensures n in order {
      var i :| 0 <= i < |roots| && roots[i] == n;
    }
  }

  ghost function Unread<N(!new)>(adjacency: Adjacency<N>, stack: seq<(N, nat)>): int {
    if stack != [] && stack[|stack| - 1].0 in adjacency
    then |adjacency[stack[|stack| - 1].0]| - stack[|stack| - 1].1
    else 0
  }

  // ---- The sweep of the reversed edges ----

  ghost predicate Reverses<N(!new)>(g: Graph<N>, reverse: Adjacency<N>) {
    && reverse.Keys == g.Keys
    && forall a, b :: b in reverse ==> (a in reverse[b] <==> Edge(g, a, b))
  }

  // A set that holds whole mutual-reachability classes only.
  ghost predicate WholeClasses<N(!new)>(g: Graph<N>, s: set<N>) {
    forall a, b :: a in s && b in g && Mutual(g, a, b) ==> b in s
  }

  // Everything that still leads to the root, walking edges backwards.
  method Gather<N(==,!new)>(ghost g: Graph<N>, root: N, reverse: Adjacency<N>, taken: set<N>)
      returns (component: set<N>, taken': set<N>)
    requires Closed(g) && Reverses(g, reverse) && root in g && root !in taken
    ensures root in component && component <= g.Keys && taken' == taken + component && component !! taken
    ensures forall n :: n in component ==> Reaches(g, n, root)
    ensures forall n, p :: n in component && Edge(g, p, n) ==> p in taken'
  {
    ReachesSelf(g, root);
    component, taken' := {}, taken + {root};
    var stack := [root];
    while stack != []
      invariant forall n :: n in stack ==> n in g && n !in component
      invariant Distinct(stack)
      invariant component <= g.Keys && component !! taken
      invariant root in component || root in stack
      invariant forall n :: n in taken' <==> n in taken || n in component || n in stack
      invariant forall n :: n in stack ==> n !in taken
      invariant forall n :: n in component || n in stack ==> Reaches(g, n, root)
      invariant forall n, p :: n in component && Edge(g, p, n) ==> p in taken'
      decreases g.Keys - taken', |stack|
    {
      var node := stack[|stack| - 1];
      ghost var full := stack;
      stack := stack[..|stack| - 1];
      assert full == stack + [node];
      assert node !in stack;
      component := component + {node};
      ghost var rest, seen := stack, taken';
      for k := 0 to |reverse[node]|
        invariant forall n :: n in stack ==> n in g && n !in component
        invariant Distinct(stack)
        invariant forall n :: n in taken' <==> n in taken || n in component || n in stack
        invariant forall n :: n in stack ==> n !in taken
        invariant forall n :: n in rest ==> n in stack
        invariant forall n :: n in component || n in stack ==> Reaches(g, n, root)
        invariant seen <= taken' && (stack == rest || seen < taken')
        invariant forall l :: 0 <= l < k ==> reverse[node][l] in taken'
      {
        var dependent := reverse[node][k];
        assert dependent in reverse[node];
        if dependent !in taken' {
          ReachesEdge(g, dependent, node);
          ReachesTransitive(g, dependent, node, root);
          taken', stack := taken' + {dependent}, stack + [dependent];
        }
      }
      forall p | Edge(g, p, node) ensures p in taken' {
        var l :| 0 <= l < |reverse[node]| && reverse[node][l] == p;
      }
    }
  }

  lemma LaterReaches<N(!new)>(g: Graph<N>, order: seq<N>, i: nat, k: nat, j: nat)
    requires FinishesSoundly(g, order) && i < |order| && k < |order| && j < |order|
    ensures i <= k <= j && Edge(g, order[i], order[j]) ==> Reaches(g, order[j], order[k])
  {
  }

  // What a search from the latest-finishing member of a class reaches never
  // finishes after it.
  lemma {:induction false} NothingFinishesLater<N(!new)>(g: Graph<N>, order: seq<N>, q: nat, path: seq<N>, k: nat)
    requires Closed(g) && Distinct(order) && FinishesSoundly(g, order)
    requires forall n :: n in order <==> n in g
    requires q < |order| && IsPath(g, path) && path[0] == order[q] && k < |path|
    requires forall j :: 0 <= j < |order| && Mutual(g, order[q], order[j]) ==> j <= q
    ensures Reaches(g, order[q], path[k])
    ensures exists j :: 0 <= j <= q && order[j] == path[k]
  {
    if k == 0 {
      ReachesSelf(g, order[q]);
    } else {
      NothingFinishesLater(g, order, q, path, k - 1);
      var i :| 0 <= i <= q && order[i] == path[k - 1];
      assert Edge(g, path[k - 1], path[k]);
      ReachesEdge(g, path[k - 1], path[k]);
      ReachesTransitive(g, order[q], path[k - 1], path[k]);
      assert path[k] in order;
      var j :| 0 <= j < |order| && order[j] == path[k];
      LaterReaches(g, order, i, q, j);
    }
  }

  lemma {:induction false} LatestMember<N(!new)>(g: Graph<N>, order: seq<N>, a: N, top: nat) returns (q: nat)
    requires forall n :: n in order <==> n in g
    requires top < |order| && exists j :: 0 <= j <= top && Mutual(g, a, order[j])
    requires forall j :: top < j < |order| ==> !Mutual(g, a, order[j])
    ensures q <= top && Mutual(g, a, order[q])
    ensures forall j :: q < j < |order| ==> !Mutual(g, a, order[j])
  {
    if Mutual(g, a, order[top]) {
      q := top;
    } else {
      q := LatestMember(g, order, a, top - 1);
    }
  }

  lemma MutualTransitive<N(!new)>(g: Graph<N>, a: N, b: N, c: N)
    requires Mutual(g, a, b) && Mutual(g, b, c)
    ensures Mutual(g, a, c)
  {
    ReachesTransitive(g, a, b, c);
    ReachesTransitive(g, c, b, a);
  }

  // A node that reaches the root, in a class with no member finishing after
  // the root, belongs to the root's class.
  lemma ReachingIsMutual<N(!new)>(g: Graph<N>, order: seq<N>, r: nat, a: N)
    requires Closed(g) && Distinct(order) && FinishesSoundly(g, order)
    requires forall n :: n in order <==> n in g
    requires r < |order| && a in g && Reaches(g, a, order[r])
    requires forall j :: r < j < |order| ==> !Mutual(g, a, order[j])
    ensures Mutual(g, order[r], a)
  {
    ReachesSelf(g, a);
    var at :| 0 <= at < |order| && order[at] == a;
    assert at <= r;
    var q := LatestMember(g, order, a, r);
    if q != r {
      ReachesTransitive(g, order[q], a, order[r]);
      forall j | 0 <= j < |order| && Mutual(g, order[q], order[j]) ensures j <= q {
        MutualTransitive(g, a, order[q], order[j]);
      }
      var p :| PathBetween(g, p, order[q], order[r]);
      NothingFinishesLater(g, order, q, p, |p| - 1);
    }
  }

  // A path inside a class never meets a set of whole classes it starts outside.
  lemma {:induction false} MembersAreGathered<N(!new)>(g: Graph<N>, taken: set<N>, component: set<N>, root: N, path: seq<N>, k: nat)
    requires Closed(g) && WholeClasses(g, taken) && root !in taken && root in component
    requires component <= g.Keys && root in g
    requires IsPath(g, path) && path[|path| - 1] == root && k < |path| && Reaches(g, root, path[0])
    requires path[0] in g
    requires forall n, p :: n in component && Edge(g, p, n) ==> p in taken + component
    ensures path[k] in component
    decreases |path| - k
  {
    if k < |path| - 1 {
      MembersAreGathered(g, taken, component, root, path, k + 1);
      assert Edge(g, path[k], path[k + 1]);
      PathReaches(g, path, 0, k);
      PathReaches(g, path, k, |path| - 1);
      ReachesTransitive(g, root, path[0], path[k]);
      if path[k] in taken {
        assert Mutual(g, path[k], root);
      }
    }
  }

  lemma {:induction false} PathReaches<N(!new)>(g: Graph<N>, path: seq<N>, i: nat, j: nat)
    requires IsPath(g, path) && i <= j < |path|
    ensures Reaches(g, path[i], path[j])
    decreases j - i
  {
    if i == j {
      ReachesSelf(g, path[i]);
    } else {
      PathReaches(g, path, i, j - 1);
      assert Edge(g, path[j - 1], path[j]);
      ReachesEdge(g, path[j - 1], path[j]);
      ReachesTransitive(g, path[i], path[j - 1], path[j]);
    }
  }

  // What the sweep gathers from a root is the root's class.
  lemma GatheredIsClass<N(!new)>(g: Graph<N>, order: seq<N>, r: nat, taken: set<N>, component: set<N>)
    requires Closed(g) && Distinct(order) && FinishesSoundly(g, order)
    requires forall n :: n in order <==> n in g
    requires r < |order| && order[r] !in taken && WholeClasses(g, taken)
    requires forall j :: r < j < |order| ==> order[j] in taken
    requires order[r] in component && component <= g.Keys && component !! taken
    requires forall n :: n in component ==> Reaches(g, n, order[r])
    requires forall n, p :: n in component && Edge(g, p, n) ==> p in taken + component
    ensures component == Class(g, order[r])
    ensures WholeClasses(g, taken + component)
  {
    var root := order[r];
    forall n | n in component ensures n in Class(g, root) {
      forall j | r < j < |order| ensures !Mutual(g, n, order[j]) {
        assert Mutual(g, n, order[j]) ==> Mutual(g, order[j], n);
      }
      ReachingIsMutual(g, order, r, n);
    }
    forall n | n in Class(g, root) ensures n in component {
      var p :| PathBetween(g, p, n, root);
      MembersAreGathered(g, taken, component, root, p, 0);
    }
    forall a, b | a in taken + component && b in g && Mutual(g, a, b) ensures b in taken + component {
      if a in component {
        MutualTransitive(g, root, a, b);
      }
    }
  }

  ghost predicate IsClass<N(!new)>(g: Graph<N>, c: set<N>) {
    exists a :: a in c && a in g && c == Class(g, a)
  }

  // The classes of the nodes in `taken`, each listed once.
  ghost predicate ClassesOf<N(!new)>(g: Graph<N>, classes: seq<set<N>>, taken: set<N>) {
    && (forall i :: 0 <= i < |classes| ==> IsClass(g, classes[i]) && classes[i] <= taken)
    && (forall i, j :: 0 <= i < j < |classes| ==> classes[i] !! classes[j])
    && (forall a :: a in taken ==> Listed(classes, Class(g, a)))
  }

  ghost predicate Listed<N(!new)>(classes: seq<set<N>>, c: set<N>) {
    exists i :: 0 <= i < |classes| && classes[i] == c
  }

  lemma AppendClass<N(!new)>(g: Graph<N>, classes: seq<set<N>>, taken: set<N>, root: N)
    requires ClassesOf(g, classes, taken) && WholeClasses(g, taken) && root in g && root !in taken
    ensures ClassesOf(g, classes + [Class(g, root)], taken + Class(g, root))
  {
    var c := Class(g, root);
    ReachesSelf(g, root);
    var after := classes + [c];
    assert c !! taken;
    assert IsClass(g, c);
    forall i | 0 <= i < |after| ensures IsClass(g, after[i]) && after[i] <= taken + c {
      if i < |classes| { assert after[i] == classes[i]; }
    }
    forall i, j | 0 <= i < j < |after| ensures after[i] !! after[j] {
      assert after[i] == classes[i];
      if j < |classes| { assert after[j] == classes[j]; }
    }
    forall a | a in taken + c ensures Listed(after, Class(g, a)) {
      if a in taken {
        var i :| 0 <= i < |classes| && classes[i] == Class(g, a);
        assert after[i] == Class(g, a);
      } else {
        SameClass(g, root, a);
        assert after[|classes|] == Class(g, a);
      }
    }
  }

  // The sweep with the nodes of `order[r..]` all settled.
  ghost predicate Swept<N(!new)>(g: Graph<N>, order: seq<N>, r: nat, classes: seq<set<N>>, taken: set<N>) {
    && WholeClasses(g, taken) && taken <= g.Keys
    && ClassesOf(g, classes, taken)
    && forall j :: r <= j < |order| ==> order[j] in taken
  }

  lemma SweepOne<N(!new)>(g: Graph<N>, order: seq<N>, r: nat, classes: seq<set<N>>, taken: set<N>, component: set<N>)
    requires Closed(g) && Distinct(order) && FinishesSoundly(g, order)
    requires forall n :: n in order <==> n in g
    requires r < |order| && order[r] !in taken && Swept(g, order, r + 1, classes, taken)
    requires order[r] in component && component <= g.Keys && component !! taken
    requires forall n :: n in component ==> Reaches(g, n, order[r])
    requires forall n, p :: n in component && Edge(g, p, n) ==> p in taken + component
    ensures Swept(g, order, r, classes + [component], taken + component)
  {
    GatheredIsClass(g, order, r, taken, component);
    AppendClass(g, classes, taken, order[r]);
  }

  lemma SweepNone<N(!new)>(g: Graph<N>, order: seq<N>, r: nat, classes: seq<set<N>>, taken: set<N>)
    requires r < |order| && order[r] in taken && Swept(g, order, r + 1, classes, taken)
    ensures Swept(g, order, r, classes, taken)
  {
  }

  lemma SweptAll<N(!new)>(g: Graph<N>, order: seq<N>, classes: seq<set<N>>, taken: set<N>)
    requires Swept(g, order, 0, classes, taken)
    requires forall n :: n in order <==> n in g
    ensures ClassesOf(g, classes, g.Keys)
  {
    assert taken == g.Keys by {
      forall a | a in g ensures a in taken { assert a in order; }
    }
  }

  // The mutual-reachability classes, latest-finishing root first.
  method Classes<N(==,!new)>(ghost g: Graph<N>, order: seq<N>, reverse: Adjacency<N>) returns (classes: seq<set<N>>)
    requires Closed(g) && Distinct(order) && FinishesSoundly(g, order)
    requires forall n :: n in order <==> n in g
    requires Reverses(g, reverse)
    ensures ClassesOf(g, classes, g.Keys)
  {
    var taken: set<N> := {};
    classes := [];
    var r := |order|;
    while r > 0
      invariant 0 <= r <= |order|
      invariant Swept(g, order, r, classes, taken)
    {
      r := r - 1;
      assert order[r] in order;
      if order[r] !in taken {
        var component, taken' := Gather(g, order[r], reverse, taken);
        SweepOne(g, order, r, classes, taken, component);
        classes, taken := classes + [component], taken';
      } else {
        SweepNone(g, order, r, classes, taken);
      }
    }
    SweptAll(g, order, classes, taken);
  }

  lemma SameClass<N(!new)>(g: Graph<N>, a: N, b: N)
    requires Mutual(g, a, b)
    ensures Class(g, a) == Class(g, b)
  {
    forall n | n in g ensures n in Class(g, a) <==> n in Class(g, b) {
      if Mutual(g, a, n) { MutualTransitive(g, b, a, n); }
      if Mutual(g, b, n) { MutualTransitive(g, a, b, n); }
    }
  }

  // ---- Adjacency lists of a graph, both ways ----

  method Elements<N(==,!new)>(s: set<N>) returns (r: seq<N>)
    ensures forall n :: n in r <==> n in s
  {
    r := [];
    var work := s;
    while work != {}
      invariant work <= s
      invariant forall n :: n in r <==> n in s - work
    {
      var n :| n in work;
      r, work := r + [n], work - {n};
    }
  }

  ghost predicate ListsEdges<N(!new)>(g: Graph<N>, adjacency: Adjacency<N>, reverse: Adjacency<N>, waiting: set<N>) {
    && adjacency.Keys == g.Keys == reverse.Keys
    && (forall a, b :: a in g && b in adjacency[a] <==> a !in waiting && Edge(g, a, b))
    && (forall a, b :: b in g && a in reverse[b] <==> a !in waiting && Edge(g, a, b))
  }

  method Connect<N(==,!new)>(g: Graph<N>) returns (adjacency: Adjacency<N>, reverse: Adjacency<N>)
    requires Closed(g)
    ensures GraphOf(adjacency) == g && WellFormed(adjacency) && Reverses(g, reverse)
  {
    adjacency, reverse := map n | n in g :: [], map n | n in g :: [];
    var work := g.Keys;
    while work != {}
      invariant work <= g.Keys
      invariant ListsEdges(g, adjacency, reverse, work)
    {
      var source :| source in work;
      var targets := Elements(g[source]);
      forall t | t in targets ensures t in reverse { assert Edge(g, source, t); }
      reverse := ConnectAll(g, source, targets, reverse);
      adjacency := adjacency[source := targets];
      work := work - {source};
    }
    forall n | n in g ensures (set m | m in adjacency[n]) == g[n] {
      forall m ensures m in adjacency[n] <==> m in g[n] { assert Edge(g, n, m) <==> m in g[n]; }
    }
    assert GraphOf(adjacency) == g;
    forall n, m | n in adjacency && m in adjacency[n] ensures m in adjacency { assert Edge(g, n, m); }
  }

  method ConnectAll<N(==,!new)>(ghost g: Graph<N>, source: N, targets: seq<N>, reverse: Adjacency<N>) returns (reverse': Adjacency<N>)
    requires forall t :: t in targets ==> t in reverse
    ensures reverse'.Keys == reverse.Keys
    ensures forall a, b :: b in reverse ==> (a in reverse'[b] <==> a in reverse[b] || (a == source && b in targets))
  {
    reverse' := reverse;
    for i := 0 to |targets|
      invariant reverse'.Keys == reverse.Keys
      invariant forall a, b :: b in reverse ==> (a in reverse'[b] <==> a in reverse[b] || (a == source && b in targets[..i]))
    {
      assert targets[..i + 1] == targets[..i] + [targets[i]];
      assert targets[i] in targets;
      reverse' := reverse'[targets[i] := reverse'[targets[i]] + [source]];
    }
    assert targets[..|targets|] == targets;
  }

  // Every mutual-reachability class of a finite graph, each once.
  method StronglyConnected<N(==,!new)>(g: Graph<N>) returns (classes: seq<set<N>>)
    requires Closed(g)
    ensures ClassesOf(g, classes, g.Keys)
  {
    var adjacency, reverse := Connect(g);
    var nodes := Elements(g.Keys);
    var order := DepthFirstFinishOrder(nodes, adjacency);
    assert adjacency.Keys == GraphOf(adjacency).Keys;
    classes := Classes(g, order, reverse);
  }
}
