/**
 What a calculation of a document must be, independent of any algorithm: every
 node has the outcome its declared reads give it, and cycles fail as a whole.
 A document has exactly one solution.
 */
module Solutions {
  import opened Model
  import opened Expressions
  import opened Evaluator
  import opened Locality
  import opened Pregraph
  import opened Graphs
  import opened DependencyGraphs
  import opened Systems

  // Every formula declares what it reads. Validation and binding enforce a
  // stronger rule, one schema per conditional aggregate.
  ghost predicate Coherent(document: Document) {
    forall f :: f in Formulas(document) ==> Declares(FormulaAt(document, f))
  }

  // Formulas without an earlier failure.
  function Eligible(document: Document): set<FieldRef> {
    set f | f in Formulas(document) && PregraphFailure(document, f) == None
  }

  // The expanded per-cell edges among some formulas.
  function FormulaGraph(document: Document, formulas: set<FieldRef>): Graph<FieldRef> {
    map f | f in formulas && IsFormula(document, f) :: Dependencies(document, f, FormulaAt(document, f)) * formulas
  }

  function CycleGraph(document: Document): Graph<FieldRef> {
    FormulaGraph(document, Eligible(document))
  }

  ghost predicate IsCyclic(document: Document, f: FieldRef) {
    OnCycle(CycleGraph(document), f)
  }

  // A node whose outcome does not wait for an evaluation.
  ghost function FixedOutcome(document: Document, c: FieldRef): Option<Result<Number>>
    requires c in Nodes(document)
  {
    if PregraphFailure(document, c).Some? then Some(Err(PregraphFailure(document, c).value))
    else if !IsFormula(document, c) then Some(Ok(Stored(document, c).value.number))
    else if IsCyclic(document, c) then Some(Err(Cycle(Class(CycleGraph(document), c))))
    else None
  }

  // The outcome of one node, given a snapshot of the others.
  ghost function NodeOutcome(rules: Rules, s: Snapshot, c: FieldRef): Result<Number>
    requires c in Nodes(s.document)
  {
    match FixedOutcome(s.document, c)
    case Some(outcome) => outcome
    case None => FormulaOutcome(rules, s, c, FormulaAt(s.document, c))
  }

  // Every node has exactly its outcome recorded, and nothing else is.
  ghost predicate Solves(rules: Rules, s: Snapshot) {
    && s.values.Keys <= Nodes(s.document) && s.failures.Keys <= Nodes(s.document)
    && forall c :: c in Nodes(s.document) ==> RecordsOutcome(rules, s, c)
  }

  // ---- A document as a system of equations ----

  ghost function FixedNodes(document: Document): map<FieldRef, Result<Number>> {
    map c | c in Nodes(document) && FixedOutcome(document, c).Some? :: FixedOutcome(document, c).value
  }

  ghost function FreeNodes(document: Document): map<FieldRef, set<FieldRef>> {
    map c | c in Nodes(document) && FixedOutcome(document, c) == None :: Dependencies(document, c, FormulaAt(document, c))
  }

  ghost function SystemOf(document: Document): System {
    System(document, FixedNodes(document), FreeNodes(document))
  }

  ghost function EvaluateAt(rules: Rules, s: Snapshot, c: FieldRef): Result<Number> {
    if IsFormula(s.document, c) then FormulaOutcome(rules, s, c, FormulaAt(s.document, c)) else Err(TypeMismatch)
  }

  ghost function OracleOf(rules: Rules): Oracle {
    (s: Snapshot, c: FieldRef) => EvaluateAt(rules, s, c)
  }

  // Agreement on the expanded dependencies is agreement on the reads.
  lemma AgreementOnDependencies(s: Snapshot, t: Snapshot, owner: FieldRef, e: Expression)
    requires s.document == t.document && AgreeOn(s, t, Dependencies(s.document, owner, e))
    ensures SameReads(s, t, owner, e)
  {
    var deps := Dependencies(s.document, owner, e);
    forall c | c in DirectReferences(owner, e) ensures SameCell(s, t, c) {
      assert c in deps;
    }
    forall k, row | k in Columns(e) && row in Rows(s.document, k.schema) ensures SameCell(s, t, FieldRef(row, k.field)) {
      assert FieldRef(row, k.field) in Slots(s.document, k);
      assert FieldRef(row, k.field) in deps;
    }
  }

  lemma FreeNodeReads(document: Document, c: FieldRef)
    requires c in FreeNodes(document)
    ensures c in Formulas(document) && c in Eligible(document) && !IsCyclic(document, c)
    ensures FreeNodes(document)[c] == Dependencies(document, c, FormulaAt(document, c))
  {
  }

  lemma EvaluationReads(rules: Rules, s: Snapshot, t: Snapshot, c: FieldRef, cells: set<FieldRef>)
    requires s.document == t.document && c in Formulas(s.document) && Declares(FormulaAt(s.document, c))
    requires cells == Dependencies(s.document, c, FormulaAt(s.document, c)) && AgreeOn(s, t, cells)
    ensures OracleOf(rules)(s, c) == OracleOf(rules)(t, c)
  {
    AgreementOnDependencies(s, t, c, FormulaAt(s.document, c));
    SameOutcome(rules, s, t, c, FormulaAt(s.document, c));
  }

  lemma EvaluationIsLocal(rules: Rules, document: Document, y: System, oracle: Oracle)
    requires Coherent(document) && y.document == document && y.free == FreeNodes(document) && oracle == OracleOf(rules)
    ensures Local(y, oracle)
  {
    forall s: Snapshot, t: Snapshot, c |
      c in y.free && s.document == y.document && t.document == y.document && AgreeOn(s, t, y.free[c])
      ensures oracle(s, c) == oracle(t, c)
    {
      FreeNodeReads(document, c);
      EvaluationReads(rules, s, t, c, y.free[c]);
    }
  }

  // Fewer nodes and fewer edges reach no further.
  lemma SubgraphReaches<N(!new)>(g: Graph<N>, h: Graph<N>, a: N, b: N)
    requires forall x, y :: Edge(g, x, y) ==> Edge(h, x, y)
    requires Reaches(g, a, b)
    ensures Reaches(h, a, b)
  {
    var p :| PathBetween(g, p, a, b);
    assert PathBetween(h, p, a, b);
  }

  lemma FreeNodesAreAcyclic(document: Document, c: FieldRef, y: System)
    requires y.free == FreeNodes(document) && c in y.free
    ensures !OnCycle(FreeGraph(y), c)
  {
    var g := FreeGraph(y);
    FreeNodeReads(document, c);
    forall a, b | Edge(g, a, b) ensures Edge(CycleGraph(document), a, b) {
      FreeNodeReads(document, a);
      FreeNodeReads(document, b);
    }
    CyclesSurvive(g, CycleGraph(document), c);
  }

  lemma CyclesSurvive<N(!new)>(g: Graph<N>, h: Graph<N>, c: N)
    requires forall x, y :: Edge(g, x, y) ==> Edge(h, x, y)
    ensures OnCycle(g, c) ==> OnCycle(h, c)
  {
    if OnCycle(g, c) {
      var m :| Edge(g, c, m) && Reaches(g, m, c);
      SubgraphReaches(g, h, m, c);
    }
  }

  lemma DocumentIsWellPosed(rules: Rules, document: Document)
    requires Coherent(document)
    ensures WellPosed(SystemOf(document), OracleOf(rules))
  {
    var y := SystemOf(document);
    EvaluationIsLocal(rules, document, y, OracleOf(rules));
    forall c | c in y.free ensures !OnCycle(FreeGraph(y), c) {
      FreeNodesAreAcyclic(document, c, y);
    }
  }

  lemma OutcomeIsOracle(rules: Rules, s: Snapshot, c: FieldRef)
    requires c in Nodes(s.document)
    ensures var y := SystemOf(s.document);
      && (c in y.fixed <==> c !in y.free)
      && (c in y.fixed ==> NodeOutcome(rules, s, c) == y.fixed[c])
      && (c in y.free ==> NodeOutcome(rules, s, c) == OracleOf(rules)(s, c))
  {
  }

  lemma SystemNodes(document: Document)
    ensures SystemOf(document).fixed.Keys + SystemOf(document).free.Keys == Nodes(document)
  {
  }

  ghost predicate RecordsOutcome(rules: Rules, s: Snapshot, c: FieldRef)
    requires c in Nodes(s.document)
  {
    Records(s, c, NodeOutcome(rules, s, c))
  }

  lemma SettlesIsRecords(rules: Rules, s: Snapshot, c: FieldRef, y: System)
    requires c in Nodes(s.document) && y == SystemOf(s.document)
    ensures Settles(y, OracleOf(rules), s, c) <==> RecordsOutcome(rules, s, c)
  {
    OutcomeIsOracle(rules, s, c);
  }

  lemma SolvesIsSolution(rules: Rules, s: Snapshot)
    ensures Solves(rules, s) <==> IsSolution(SystemOf(s.document), OracleOf(rules), s)
  {
    SystemNodes(s.document);
    forall c | c in Nodes(s.document)
      ensures Settles(SystemOf(s.document), OracleOf(rules), s, c) <==> RecordsOutcome(rules, s, c)
    {
      SettlesIsRecords(rules, s, c, SystemOf(s.document));
    }
    SolutionBySettling(rules, s, SystemOf(s.document), Nodes(s.document));
  }

  lemma SolutionBySettling(rules: Rules, s: Snapshot, y: System, nodes: set<FieldRef>)
    requires s.document == y.document && nodes == Nodes(s.document) == y.fixed.Keys + y.free.Keys
    requires forall c :: c in nodes ==> (Settles(y, OracleOf(rules), s, c) <==> RecordsOutcome(rules, s, c))
    ensures Solves(rules, s) <==> IsSolution(y, OracleOf(rules), s)
  {
    assert OnlyNodes(y, s) <==> s.values.Keys <= nodes && s.failures.Keys <= nodes;
  }

  // A document has one solution.
  lemma OneSolution(rules: Rules, s: Snapshot, t: Snapshot)
    requires s.document == t.document && Coherent(s.document) && Solves(rules, s) && Solves(rules, t)
    ensures s == t
  {
    SolvesIsSolution(rules, s);
    SolvesIsSolution(rules, t);
    DocumentIsWellPosed(rules, s.document);
    SolutionIsUnique(SystemOf(s.document), OracleOf(rules), s, t);
  }

  // When every edge leads to one node and none leaves it there is no cycle.
  lemma OneSinkNoCycles<N(!new)>(g: Graph<N>, sink: N, c: N)
    requires forall x, y :: Edge(g, x, y) ==> x != sink && y == sink
    ensures !OnCycle(g, c)
  {
    if OnCycle(g, c) {
      var m :| Edge(g, c, m) && Reaches(g, m, c);
      ReachesSplit(g, m, c);
      assert false;
    }
  }

  // Formulas that read no formula are on no cycle.
  lemma NoEdgesNoCycles(document: Document, c: FieldRef)
    requires forall f, d :: f in Formulas(document) && d in Dependencies(document, f, FormulaAt(document, f)) ==>
      d !in Formulas(document)
    ensures !IsCyclic(document, c)
  {
  }

  // What a node's outcome waits for.
  lemma NodeOfSystem(document: Document, y: System, c: FieldRef)
    requires y == SystemOf(document)
    requires c in Nodes(document) && PregraphFailure(document, c) == None && !IsCyclic(document, c)
    ensures IsFormula(document, c) ==>
      c in y.free && c !in y.fixed && y.free[c] == Dependencies(document, c, FormulaAt(document, c))
    ensures !IsFormula(document, c) ==> c in y.fixed && c !in y.free && y.fixed[c] == Ok(Stored(document, c).value.number)
  {
  }

  lemma FixedInSystem(document: Document, y: System, c: FieldRef)
    requires y == SystemOf(document)
    ensures c in y.fixed ==> c in Nodes(document) && FixedOutcome(document, c) == Some(y.fixed[c])
    ensures c in y.free ==> c in Nodes(document) && FixedOutcome(document, c) == None && IsFormula(document, c)
  {
  }

  lemma OnlyNodesInSystem(document: Document, y: System)
    requires y == SystemOf(document)
    ensures y.free.Keys <= Nodes(document) && y.fixed.Keys <= Nodes(document)
  {
  }

  // Whatever order the formulas of a document are taken in, each after what it
  // declares, the run ends in the solution.
  lemma AnyOrderSolves(rules: Rules, document: Document, s: Snapshot, pending: set<FieldRef>, one: seq<FieldRef>, other: seq<FieldRef>)
    requires Coherent(document) && Pass(SystemOf(document), OracleOf(rules), s, pending)
    requires Schedules(SystemOf(document), pending, one) && Schedules(SystemOf(document), pending, other)
    ensures Run(OracleOf(rules), s, one) == Run(OracleOf(rules), s, other)
    ensures Solves(rules, Run(OracleOf(rules), s, one))
  {
    DocumentIsWellPosed(rules, document);
    OrderDoesNotMatter(SystemOf(document), OracleOf(rules), s, pending, one, other);
    RunSolves(SystemOf(document), OracleOf(rules), s, pending, one);
    SolvesIsSolution(rules, Run(OracleOf(rules), s, one));
  }
}
