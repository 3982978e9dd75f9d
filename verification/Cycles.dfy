/**
 Cycle detection on the bipartite graph of formula cells and column nodes,
 against the expanded per-cell graph it stands for.
 */
module Cycles {
  import opened Model
  import opened Expressions
  import opened Graphs
  import opened Components
  import opened DependencyGraphs
  import opened Solutions

  // A formula leads to the columns it reads, and a column to the formulas in it.
  datatype GraphNode = Cell(cell: FieldRef) | Column(column: ColumnRef)

  function ReadColumns(v: Edges, eligible: set<FieldRef>): set<ColumnRef> {
    set f, k | f in eligible && f in v.columnUses && k in v.columnUses[f] :: k
  }

  function CellTargets(v: Edges, eligible: set<FieldRef>, f: FieldRef): set<GraphNode> {
    (if f in v.referenceUses then set r | r in v.referenceUses[f] && r in eligible :: Cell(r) else {})
    + if f in v.columnUses then set k | k in v.columnUses[f] :: Column(k) else {}
  }

  function ColumnTargets(v: Edges, eligible: set<FieldRef>, k: ColumnRef): set<GraphNode> {
    if k in v.columnSlots then set s | s in v.columnSlots[k] && s in eligible :: Cell(s) else {}
  }

  function BipartiteGraph(v: Edges, eligible: set<FieldRef>): Graph<GraphNode> {
    (map n | n in (set f | f in eligible :: Cell(f)) :: CellTargets(v, eligible, n.cell))
    + map n | n in (set k | k in ReadColumns(v, eligible) :: Column(k)) :: ColumnTargets(v, eligible, n.column)
  }

  // ---- The bipartite edges, read off the document ----

  // What a formula's cell node links to.
  ghost predicate CellLinks(document: Document, eligible: set<FieldRef>, f: FieldRef, n: GraphNode) {
    && f in eligible && IsFormula(document, f)
    && match n
       case Cell(r) => r in eligible && r in DirectReferences(f, FormulaAt(document, f))
       case Column(k) => k in Columns(FormulaAt(document, f))
  }

  ghost predicate CellEdges(b: Graph<GraphNode>, document: Document, eligible: set<FieldRef>, f: FieldRef) {
    && (Cell(f) in b <==> f in eligible)
    && forall n :: Edge(b, Cell(f), n) <==> CellLinks(document, eligible, f, n)
  }

  ghost predicate ColumnEdges(b: Graph<GraphNode>, document: Document, eligible: set<FieldRef>, k: ColumnRef) {
    forall n :: Edge(b, Column(k), n) <==>
      Column(k) in b && n.Cell? && n.cell in eligible && n.cell in Slots(document, k)
  }

  ghost predicate IsBipartite(b: Graph<GraphNode>, document: Document, eligible: set<FieldRef>) {
    && eligible <= Formulas(document)
    && Closed(b)
    && (forall f {:trigger CellEdges(b, document, eligible, f)} :: CellEdges(b, document, eligible, f))
    && (forall k {:trigger ColumnEdges(b, document, eligible, k)} :: ColumnEdges(b, document, eligible, k))
  }

  lemma BipartiteCells(v: Edges, eligible: set<FieldRef>, f: FieldRef)
    ensures Cell(f) in BipartiteGraph(v, eligible) <==> f in eligible
    ensures f in eligible ==> BipartiteGraph(v, eligible)[Cell(f)] == CellTargets(v, eligible, f)
  {
  }

  lemma CellTargetsAreLinks(v: Edges, document: Document, eligible: set<FieldRef>, f: FieldRef, n: GraphNode)
    requires Exact(v, document) && eligible <= Formulas(document) && f in eligible
    ensures n in CellTargets(v, eligible, f) <==> CellLinks(document, eligible, f, n)
  {
    if n.Cell? {
      assert n in CellTargets(v, eligible, f) <==> n.cell in v.referenceUses[f] && n.cell in eligible;
    } else {
      assert n in CellTargets(v, eligible, f) <==> n.column in v.columnUses[f];
    }
  }

  lemma CellEdgesHold(v: Edges, document: Document, eligible: set<FieldRef>, f: FieldRef)
    requires Exact(v, document) && eligible <= Formulas(document)
    ensures CellEdges(BipartiteGraph(v, eligible), document, eligible, f)
  {
    BipartiteCells(v, eligible, f);
    if f in eligible {
      forall n ensures n in CellTargets(v, eligible, f) <==> CellLinks(document, eligible, f, n) {
        CellTargetsAreLinks(v, document, eligible, f, n);
      }
    }
  }

  lemma ColumnEdgesHold(v: Edges, document: Document, eligible: set<FieldRef>, k: ColumnRef)
    requires Exact(v, document) && eligible <= Formulas(document)
    ensures ColumnEdges(BipartiteGraph(v, eligible), document, eligible, k)
  {
    var b := BipartiteGraph(v, eligible);
    if Column(k) in b {
      assert b[Column(k)] == ColumnTargets(v, eligible, k);
      var f :| f in eligible && f in v.columnUses && k in v.columnUses[f];
      assert Has(v.columnReaders, k, f);
      assert ExactColumn(v.columnSlots, v.slotColumns, document, k);
    }
  }

  lemma BipartiteHolds(v: Edges, document: Document, eligible: set<FieldRef>)
    requires Exact(v, document) && eligible <= Formulas(document)
    ensures IsBipartite(BipartiteGraph(v, eligible), document, eligible)
  {
    var b := BipartiteGraph(v, eligible);
    forall f ensures CellEdges(b, document, eligible, f) {
      CellEdgesHold(v, document, eligible, f);
    }
    forall k ensures ColumnEdges(b, document, eligible, k) {
      ColumnEdgesHold(v, document, eligible, k);
    }
    forall n, m | Edge(b, n, m) ensures m in b {
      if n.Cell? {
        assert CellEdges(b, document, eligible, n.cell);
        if m.Cell? { assert CellEdges(b, document, eligible, m.cell); }
        else { assert m.column in ReadColumns(v, eligible); }
      } else {
        assert ColumnEdges(b, document, eligible, n.column);
        assert CellEdges(b, document, eligible, m.cell);
      }
    }
  }

  // ---- Reachability through column nodes is reachability cell to cell ----

  lemma ExpandedStep(b: Graph<GraphNode>, document: Document, eligible: set<FieldRef>, a: FieldRef, c: FieldRef)
    requires IsBipartite(b, document, eligible) && Edge(FormulaGraph(document, eligible), a, c)
    ensures Precedes(b, Cell(a), Cell(c))
  {
    assert CellEdges(b, document, eligible, a);
    ReachesSelf(b, Cell(c));
    if c in DirectReferences(a, FormulaAt(document, a)) {
      assert Edge(b, Cell(a), Cell(c));
    } else {
      var k :| k in Columns(FormulaAt(document, a)) && c in Slots(document, k);
      assert ColumnEdges(b, document, eligible, k);
      assert Edge(b, Cell(a), Column(k)) && Edge(b, Column(k), Cell(c));
      ReachesEdge(b, Column(k), Cell(c));
    }
  }

  lemma ExpandedReaches(b: Graph<GraphNode>, document: Document, eligible: set<FieldRef>, a: FieldRef, c: FieldRef)
    requires IsBipartite(b, document, eligible) && Reaches(FormulaGraph(document, eligible), a, c)
    ensures Reaches(b, Cell(a), Cell(c))
  {
    var g := FormulaGraph(document, eligible);
    ReachesSelf(b, Cell(a));
    var s := iset x: FieldRef | Reaches(b, Cell(a), Cell(x));
    forall x, y | x in s && Edge(g, x, y) ensures y in s {
      ExpandedStep(b, document, eligible, x, y);
      PrecedesReaches(b, Cell(x), Cell(y));
      ReachesTransitive(b, Cell(a), Cell(x), Cell(y));
    }
    ReachesStays(g, s, a, c);
  }

  // Two steps through a column, or one direct step, are one expanded edge.
  lemma CellStep(b: Graph<GraphNode>, document: Document, eligible: set<FieldRef>, x: FieldRef, n: GraphNode, c: FieldRef)
    requires IsBipartite(b, document, eligible)
    requires (n == Cell(x) && Edge(b, n, Cell(c))) || (n.Column? && Edge(b, Cell(x), n) && Edge(b, n, Cell(c)))
    ensures Edge(FormulaGraph(document, eligible), x, c)
  {
    assert CellEdges(b, document, eligible, x);
    if n.Column? {
      assert ColumnEdges(b, document, eligible, n.column);
      assert c in Slots(document, n.column);
    }
    assert c in Dependencies(document, x, FormulaAt(document, x));
  }

  // What a node stands for, seen from a: a cell a reaches, or a column some
  // such cell reads.
  ghost predicate Reached(b: Graph<GraphNode>, g: Graph<FieldRef>, a: FieldRef, n: GraphNode) {
    match n
    case Cell(c) => Reaches(g, a, c)
    case Column(_) => exists x :: Reaches(g, a, x) && Edge(b, Cell(x), n)
  }

  lemma ReachedStep(b: Graph<GraphNode>, document: Document, eligible: set<FieldRef>, a: FieldRef, n: GraphNode, m: GraphNode)
    requires IsBipartite(b, document, eligible)
    requires Reached(b, FormulaGraph(document, eligible), a, n) && Edge(b, n, m)
    ensures Reached(b, FormulaGraph(document, eligible), a, m)
  {
    var g := FormulaGraph(document, eligible);
    if m.Cell? {
      var x: FieldRef;
      if n.Cell? {
        x := n.cell;
      } else {
        x :| Reaches(g, a, x) && Edge(b, Cell(x), n);
      }
      CellStep(b, document, eligible, x, n, m.cell);
      ReachesEdge(g, x, m.cell);
      ReachesTransitive(g, a, x, m.cell);
    } else if n.Column? {
      ColumnLeadsToCell(b, document, eligible, n.column, m);
    }
  }

  lemma ColumnLeadsToCell(b: Graph<GraphNode>, document: Document, eligible: set<FieldRef>, k: ColumnRef, n: GraphNode)
    requires IsBipartite(b, document, eligible) && Edge(b, Column(k), n)
    ensures n.Cell?
  {
    assert ColumnEdges(b, document, eligible, k);
  }

  lemma BipartiteReaches(b: Graph<GraphNode>, document: Document, eligible: set<FieldRef>, a: FieldRef, c: FieldRef)
    requires IsBipartite(b, document, eligible) && Reaches(b, Cell(a), Cell(c))
    ensures Reaches(FormulaGraph(document, eligible), a, c)
  {
    var g := FormulaGraph(document, eligible);
    ReachesSelf(g, a);
    var s := iset n: GraphNode | Reached(b, g, a, n);
    forall n, m | n in s && Edge(b, n, m) ensures m in s {
      ReachedStep(b, document, eligible, a, n, m);
    }
    ReachesStays(b, s, Cell(a), Cell(c));
  }

  // The cell a step from a cell leads to, directly or through a column.
  lemma NextCell(b: Graph<GraphNode>, document: Document, eligible: set<FieldRef>, f: FieldRef, n: GraphNode) returns (c: FieldRef)
    requires IsBipartite(b, document, eligible) && Edge(b, Cell(f), n) && Reaches(b, n, Cell(f))
    ensures Edge(FormulaGraph(document, eligible), f, c) && Reaches(b, Cell(c), Cell(f))
  {
    if n.Cell? {
      c := n.cell;
      CellStep(b, document, eligible, f, Cell(f), c);
    } else {
      ReachesSplit(b, n, Cell(f));
      var m :| Edge(b, n, m) && Reaches(b, m, Cell(f));
      assert ColumnEdges(b, document, eligible, n.column);
      c := m.cell;
      CellStep(b, document, eligible, f, n, c);
    }
  }

  lemma BipartiteCycle(b: Graph<GraphNode>, document: Document, eligible: set<FieldRef>, f: FieldRef)
    requires IsBipartite(b, document, eligible)
    ensures OnCycle(b, Cell(f)) <==> OnCycle(FormulaGraph(document, eligible), f)
  {
    var g := FormulaGraph(document, eligible);
    if OnCycle(b, Cell(f)) {
      var n :| Edge(b, Cell(f), n) && Reaches(b, n, Cell(f));
      var c := NextCell(b, document, eligible, f, n);
      BipartiteReaches(b, document, eligible, c, f);
    }
    if OnCycle(g, f) {
      var c :| Edge(g, f, c) && Reaches(g, c, f);
      ExpandedStep(b, document, eligible, f, c);
      ExpandedReaches(b, document, eligible, c, f);
      PrecedesThen(b, Cell(f), Cell(c), Cell(f));
    }
  }

  // ---- Components ----

  function Members(component: set<GraphNode>): set<FieldRef> {
    set n | n in component && n.Cell? :: n.cell
  }

  lemma MembersAreAClass(b: Graph<GraphNode>, document: Document, eligible: set<FieldRef>, f: FieldRef)
    requires IsBipartite(b, document, eligible) && f in eligible
    ensures Members(Class(b, Cell(f))) == Class(FormulaGraph(document, eligible), f)
  {
    var g := FormulaGraph(document, eligible);
    forall c ensures c in Members(Class(b, Cell(f))) <==> c in Class(g, f) {
      assert CellEdges(b, document, eligible, c);
      if c in Members(Class(b, Cell(f))) {
        BipartiteReaches(b, document, eligible, f, c);
        BipartiteReaches(b, document, eligible, c, f);
      }
      if c in Class(g, f) {
        ExpandedReaches(b, document, eligible, f, c);
        ExpandedReaches(b, document, eligible, c, f);
        assert Cell(c) in Class(b, Cell(f));
      }
    }
  }

  // A cell with a mutually reachable companion is on a cycle.
  lemma CompanionMakesCycle(b: Graph<GraphNode>, document: Document, eligible: set<FieldRef>, f: FieldRef, m: GraphNode)
    requires IsBipartite(b, document, eligible)
    requires m != Cell(f) && Mutual(b, Cell(f), m)
    ensures OnCycle(FormulaGraph(document, eligible), f)
  {
    ReachesSplit(b, Cell(f), m);
    PrecedesThen(b, Cell(f), m, Cell(f));
    BipartiteCycle(b, document, eligible, f);
  }

  // A column's class with another node holds a cell.
  lemma CompanionOfColumn(b: Graph<GraphNode>, document: Document, eligible: set<FieldRef>, k: ColumnRef, m: GraphNode) returns (f: FieldRef)
    requires IsBipartite(b, document, eligible)
    requires m != Column(k) && Mutual(b, Column(k), m)
    ensures Mutual(b, Column(k), Cell(f))
  {
    ReachesSplit(b, Column(k), m);
    var c :| Edge(b, Column(k), c) && Reaches(b, c, m);
    assert ColumnEdges(b, document, eligible, k);
    ReachesEdge(b, Column(k), c);
    ReachesTransitive(b, c, m, Column(k));
    f := c.cell;
  }

  // A lone cell is cyclic just when it names itself; a lone column never is.
  lemma LoneCell(b: Graph<GraphNode>, document: Document, eligible: set<FieldRef>, f: FieldRef)
    requires IsBipartite(b, document, eligible) && f in eligible
    requires Class(b, Cell(f)) == {Cell(f)}
    ensures OnCycle(FormulaGraph(document, eligible), f) <==> f in DirectReferences(f, FormulaAt(document, f))
  {
    assert CellEdges(b, document, eligible, f);
    BipartiteCycle(b, document, eligible, f);
    ReachesSelf(b, Cell(f));
    if OnCycle(b, Cell(f)) {
      var n :| Edge(b, Cell(f), n) && Reaches(b, n, Cell(f));
      ReachesEdge(b, Cell(f), n);
      assert n in Class(b, Cell(f));
    }
    if f in DirectReferences(f, FormulaAt(document, f)) {
      assert Edge(b, Cell(f), Cell(f));
    }
  }

  // component.len() > 1, or a single formula that names itself.
  predicate IsCyclicComponent(v: Edges, component: set<GraphNode>) {
    |component| > 1 || exists n :: n in component && NamesItself(v, n)
  }

  predicate NamesItself(v: Edges, n: GraphNode) {
    n.Cell? && n.cell in v.referenceUses && n.cell in v.referenceUses[n.cell]
  }

  ghost predicate IsCycleClass(g: Graph<FieldRef>, members: set<FieldRef>) {
    exists f :: f in g && OnCycle(g, f) && members == Class(g, f)
  }

  lemma SingletonOrLarger<T>(s: set<T>, x: T)
    requires x in s
    ensures |s| > 1 <==> s != {x}
    ensures s != {x} ==> exists y :: y in s && y != x
  {
    if s != {x} {
      assert s - {x} != {};
      var y :| y in s - {x};
      assert |s| == |s - {x}| + 1;
    }
  }

  // A component with several nodes is cyclic, and is the class of its cells.
  lemma LargeComponent(b: Graph<GraphNode>, document: Document, eligible: set<FieldRef>, n: GraphNode)
    requires IsBipartite(b, document, eligible) && n in b && n in Class(b, n) && Class(b, n) != {n}
    ensures IsCycleClass(FormulaGraph(document, eligible), Members(Class(b, n)))
  {
    SingletonOrLarger(Class(b, n), n);
    var m :| m in Class(b, n) && m != n;
    var f: FieldRef, other: GraphNode;
    if n.Cell? {
      f, other := n.cell, m;
    } else {
      f := CompanionOfColumn(b, document, eligible, n.column, m);
      other := n;
    }
    CompanionMakesCycle(b, document, eligible, f, other);
    if n.Cell? { ReachesSelf(b, n); }
    SameClass(b, n, Cell(f));
    CycleIsEligible(document, eligible, f);
    MembersAreAClass(b, document, eligible, f);
  }

  lemma CycleIsEligible(document: Document, eligible: set<FieldRef>, f: FieldRef)
    requires OnCycle(FormulaGraph(document, eligible), f)
    ensures f in eligible && f in FormulaGraph(document, eligible)
  {
  }

  // The test on a component decides whether its cells are on a cycle.
  lemma ComponentTest(v: Edges, b: Graph<GraphNode>, document: Document, eligible: set<FieldRef>, component: set<GraphNode>)
    requires Exact(v, document) && IsBipartite(b, document, eligible) && IsClass(b, component)
    ensures IsCyclicComponent(v, component) ==> IsCycleClass(FormulaGraph(document, eligible), Members(component))
    ensures forall f :: Cell(f) in component && OnCycle(FormulaGraph(document, eligible), f) ==> IsCyclicComponent(v, component)
  {
    var n :| n in component && n in b && component == Class(b, n);
    SingletonOrLarger(component, n);
    if component != {n} {
      LargeComponent(b, document, eligible, n);
    } else {
      LoneComponent(v, b, document, eligible, n);
    }
  }

  // A component of one node is cyclic when the node is a formula that names
  // itself.
  lemma LoneComponent(v: Edges, b: Graph<GraphNode>, document: Document, eligible: set<FieldRef>, n: GraphNode)
    requires Exact(v, document) && IsBipartite(b, document, eligible) && n in b && Class(b, n) == {n}
    ensures IsCyclicComponent(v, {n}) ==> IsCycleClass(FormulaGraph(document, eligible), Members({n}))
    ensures forall f :: Cell(f) in {n} && OnCycle(FormulaGraph(document, eligible), f) ==> IsCyclicComponent(v, {n})
  {
    LoneTest(v, n);
    if n.Cell? {
      assert CellEdges(b, document, eligible, n.cell);
      LoneCell(b, document, eligible, n.cell);
      MembersAreAClass(b, document, eligible, n.cell);
      NamingIsReading(v, document, n.cell);
    }
  }

  lemma LoneTest(v: Edges, n: GraphNode)
    ensures IsCyclicComponent(v, {n}) <==> NamesItself(v, n)
  {
    assert n in {n} && |{n}| == 1;
  }

  lemma NamingIsReading(v: Edges, document: Document, f: FieldRef)
    requires Exact(v, document) && f in Formulas(document)
    ensures NamesItself(v, Cell(f)) <==> f in DirectReferences(f, FormulaAt(document, f))
  {
  }

  // What cycle detection must return: every class of the expanded graph that
  // holds a cycle, each once.
  ghost predicate AreCycles(g: Graph<FieldRef>, cycles: seq<set<FieldRef>>) {
    && (forall i :: 0 <= i < |cycles| ==> IsCycleClass(g, cycles[i]))
    && (forall i, j :: 0 <= i < j < |cycles| ==> cycles[i] !! cycles[j])
    && (forall f :: f in g && OnCycle(g, f) ==> InSome(cycles, f))
  }

  ghost predicate InSome(cycles: seq<set<FieldRef>>, f: FieldRef) {
    exists i :: 0 <= i < |cycles| && f in cycles[i]
  }

  // The cycles found among the first i components.
  ghost predicate CyclesSoFar(v: Edges, g: Graph<FieldRef>, components: seq<set<GraphNode>>, i: nat, cycles: seq<set<FieldRef>>)
    requires i <= |components|
  {
    && (forall j :: 0 <= j < |cycles| ==> IsCycleClass(g, cycles[j]))
    && (forall j, k :: 0 <= j < k < |cycles| ==> cycles[j] !! cycles[k])
    && (forall j, f :: 0 <= j < |cycles| && f in cycles[j] ==> exists l :: 0 <= l < i && Cell(f) in components[l])
    && (forall l, f :: 0 <= l < i && Cell(f) in components[l] && IsCyclicComponent(v, components[l]) ==> InSome(cycles, f))
  }

  lemma CyclesStep(
    v: Edges, g: Graph<FieldRef>, components: seq<set<GraphNode>>, i: nat, cycles: seq<set<FieldRef>>, cycles': seq<set<FieldRef>>
  )
    requires i < |components| && CyclesSoFar(v, g, components, i, cycles)
    requires forall j, k :: 0 <= j < k < |components| ==> components[j] !! components[k]
    requires IsCyclicComponent(v, components[i]) ==> IsCycleClass(g, Members(components[i]))
    requires cycles' == if IsCyclicComponent(v, components[i]) then cycles + [Members(components[i])] else cycles
    ensures CyclesSoFar(v, g, components, i + 1, cycles')
  {
    if IsCyclicComponent(v, components[i]) {
      NewCycleIsDisjoint(v, g, components, i, cycles);
    }
    forall l, f | 0 <= l < i + 1 && Cell(f) in components[l] && IsCyclicComponent(v, components[l]) ensures InSome(cycles', f) {
      if l < i {
        assert InSome(cycles, f);
        var j :| 0 <= j < |cycles| && f in cycles[j];
        assert cycles'[j] == cycles[j];
      } else {
        assert f in cycles'[|cycles|];
      }
    }
    forall j, f | 0 <= j < |cycles'| && f in cycles'[j] ensures exists l :: 0 <= l < i + 1 && Cell(f) in components[l] {
      if j == |cycles| { assert Cell(f) in components[i]; }
    }
  }

  lemma NewCycleIsDisjoint(v: Edges, g: Graph<FieldRef>, components: seq<set<GraphNode>>, i: nat, cycles: seq<set<FieldRef>>)
    requires i < |components| && CyclesSoFar(v, g, components, i, cycles)
    requires forall j, k :: 0 <= j < k < |components| ==> components[j] !! components[k]
    ensures forall j :: 0 <= j < |cycles| ==> cycles[j] !! Members(components[i])
  {
    forall j, f | 0 <= j < |cycles| && f in cycles[j] ensures f !in Members(components[i]) {
      var l :| 0 <= l < i && Cell(f) in components[l];
      assert components[l] !! components[i];
    }
  }

  // The complete cyclic components of the eligible formulas.
  method CyclicComponents(eligible: set<FieldRef>, v: Edges, ghost document: Document) returns (cycles: seq<set<FieldRef>>)
    requires Exact(v, document) && eligible <= Formulas(document)
    ensures AreCycles(FormulaGraph(document, eligible), cycles)
  {
    var b := BipartiteGraph(v, eligible);
    ghost var g := FormulaGraph(document, eligible);
    BipartiteHolds(v, document, eligible);
    var components := StronglyConnected(b);
    cycles := [];
    for i := 0 to |components|
      invariant CyclesSoFar(v, g, components, i, cycles)
    {
      ComponentTest(v, b, document, eligible, components[i]);
      ghost var before := cycles;
      if IsCyclicComponent(v, components[i]) {
        cycles := cycles + [Members(components[i])];
      }
      CyclesStep(v, g, components, i, before, cycles);
    }
    forall f | f in g && OnCycle(g, f) ensures InSome(cycles, f) {
      EveryCycleIsFound(v, b, document, eligible, components, f);
    }
  }

  lemma EveryCycleIsFound(
    v: Edges, b: Graph<GraphNode>, document: Document, eligible: set<FieldRef>, components: seq<set<GraphNode>>, f: FieldRef
  )
    requires Exact(v, document) && IsBipartite(b, document, eligible) && ClassesOf(b, components, b.Keys)
    requires OnCycle(FormulaGraph(document, eligible), f)
    ensures exists l :: 0 <= l < |components| && Cell(f) in components[l] && IsCyclicComponent(v, components[l])
  {
    CycleIsEligible(document, eligible, f);
    assert CellEdges(b, document, eligible, f);
    assert Components.Listed(components, Class(b, Cell(f)));
    var l :| 0 <= l < |components| && components[l] == Class(b, Cell(f));
    ReachesSelf(b, Cell(f));
    assert Cell(f) in components[l];
    ComponentTest(v, b, document, eligible, components[l]);
  }
}
