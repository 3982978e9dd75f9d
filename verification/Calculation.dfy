/** The full calculation of a document: its phases, in order. */
module Calculations {
  import opened Model
  import opened Expressions
  import opened Evaluator
  import opened Graphs
  import opened Pregraph
  import opened DependencyGraphs
  import opened Systems
  import opened Solutions
  import opened Cycles
  import opened Scheduling

  // The failures of a phase that fails every cyclic formula with its complete
  // component.
  ghost predicate AddsCycles(g: Graph<FieldRef>, before: FailureMap, after: FailureMap) {
    && (forall c :: c in after <==> c in before || (c in g && OnCycle(g, c)))
    && (forall c :: c in before && !(c in g && OnCycle(g, c)) ==> after[c] == before[c])
    && (forall c :: c in g && OnCycle(g, c) ==> after[c] == Cycle(Class(g, c)))
  }

  // assign_cycle_failures over the formulas without an earlier failure.
  method AssignCycleFailures(formulas: set<FieldRef>, v: Edges, failures: FailureMap, ghost document: Document)
      returns (failures': FailureMap)
    requires formulas <= Formulas(document) && Exact(v, document)
    ensures AddsCycles(FormulaGraph(document, set f | f in formulas && f !in failures), failures, failures')
  {
    var eligible := set f | f in formulas && f !in failures;
    var cycles := CyclicComponents(eligible, v, document);
    failures' := FailCycles(cycles, failures, FormulaGraph(document, eligible));
  }

  // Each cyclic formula fails with its whole component.
  method FailCycles(cycles: seq<set<FieldRef>>, failures: FailureMap, ghost g: Graph<FieldRef>) returns (failures': FailureMap)
    requires AreCycles(g, cycles)
    ensures AddsCycles(g, failures, failures')
  {
    failures' := failures;
    for i := 0 to |cycles|
      invariant FailedUpTo(g, cycles, i, failures, failures')
    {
      ghost var before := failures';
      failures' := FailMembers(cycles[i], Cycle(cycles[i]), failures');
      FailedStep(g, cycles, i, failures, before, failures');
    }
    FailedAll(g, cycles, failures, failures');
  }

  // The failures once the first i components are recorded.
  ghost predicate FailedUpTo(g: Graph<FieldRef>, cycles: seq<set<FieldRef>>, i: nat, failures: FailureMap, now: FailureMap)
    requires i <= |cycles|
  {
    && (forall c :: c in now <==> c in failures || InSome(cycles[..i], c))
    && (forall c :: c in failures && !InSome(cycles[..i], c) ==> now[c] == failures[c])
    && (forall c :: InSome(cycles[..i], c) ==> now[c] == Cycle(Class(g, c)))
  }

  lemma FailedStep(
    g: Graph<FieldRef>, cycles: seq<set<FieldRef>>, i: nat, failures: FailureMap, before: FailureMap, after: FailureMap
  )
    requires i < |cycles| && IsCycleClass(g, cycles[i]) && FailedUpTo(g, cycles, i, failures, before)
    requires after.Keys == before.Keys + cycles[i]
    requires forall c :: c in after ==> after[c] == if c in cycles[i] then Cycle(cycles[i]) else before[c]
    ensures FailedUpTo(g, cycles, i + 1, failures, after)
  {
    forall c ensures InSome(cycles[..i + 1], c) <==> InSome(cycles[..i], c) || c in cycles[i] {
      InSomePrefix(cycles, i, c);
    }
    forall c | c in cycles[i] ensures Class(g, c) == cycles[i] {
      MembersShareTheirClass(g, cycles[i], c);
    }
  }

  lemma FailedAll(g: Graph<FieldRef>, cycles: seq<set<FieldRef>>, failures: FailureMap, after: FailureMap)
    requires AreCycles(g, cycles) && FailedUpTo(g, cycles, |cycles|, failures, after)
    ensures AddsCycles(g, failures, after)
  {
    assert cycles[..|cycles|] == cycles;
    forall c ensures InSome(cycles, c) <==> c in g && OnCycle(g, c) {
      if InSome(cycles, c) {
        var i :| 0 <= i < |cycles| && c in cycles[i];
        MembersShareTheirClass(g, cycles[i], c);
      }
    }
  }

  lemma InSomePrefix(cycles: seq<set<FieldRef>>, i: nat, c: FieldRef)
    requires i < |cycles|
    ensures InSome(cycles[..i + 1], c) <==> InSome(cycles[..i], c) || c in cycles[i]
  {
    assert cycles[..i + 1] == cycles[..i] + [cycles[i]];
    if InSome(cycles[..i], c) {
      var j :| 0 <= j < |cycles[..i]| && c in cycles[..i][j];
      assert c in cycles[..i + 1][j];
    }
    if c in cycles[i] { assert c in cycles[..i + 1][i]; }
  }

  // Every member of a cyclic class is on a cycle and has that class.
  lemma MembersShareTheirClass(g: Graph<FieldRef>, members: set<FieldRef>, c: FieldRef)
    requires IsCycleClass(g, members) && c in members
    ensures c in g && OnCycle(g, c) && Class(g, c) == members
  {
    var f :| f in g && OnCycle(g, f) && members == Class(g, f);
    Components.SameClass(g, f, c);
    ThenPrecedes(g, c, f, f);
    PrecedesThen(g, c, f, c);
  }

  method FailMembers(members: set<FieldRef>, failure: CalculationFailure, failures: FailureMap) returns (failures': FailureMap)
    ensures failures'.Keys == failures.Keys + members
    ensures forall c :: c in failures' ==> failures'[c] == if c in members then failure else failures[c]
  {
    failures' := failures;
    var work := members;
    while work != {}
      invariant work <= members
      invariant failures'.Keys == failures.Keys + (members - work)
      invariant forall c :: c in failures' ==> failures'[c] == if c in members - work then failure else failures[c]
    {
      var member :| member in work;
      failures' := failures'[member := failure];
      work := work - {member};
    }
  }

  // Before any formula is evaluated the unfailed number cells have their values.
  function InitialValues(document: Document, nodes: set<FieldRef>, failures: FailureMap): ValueMap {
    map c | c in nodes && c !in failures && Stored(document, c).Some? && Stored(document, c).value.NumberValue?
      :: Stored(document, c).value.number
  }

  // What a node holds when the evaluation starts: its fixed outcome, or
  // nothing yet.
  ghost predicate StartsRight(document: Document, s: Snapshot, c: FieldRef)
    requires c in Nodes(document)
  {
    match FixedOutcome(document, c)
    case Some(outcome) => Records(s, c, outcome)
    case None => IsFormula(document, c) && c !in s.values && c !in s.failures
  }

  // The first three phases of a whole document leave exactly its free nodes.
  lemma PhasesStartPass(oracle: Oracle, document: Document, failures: FailureMap)
    requires AddsCycles(CycleGraph(document), PregraphMap(document, Nodes(document)), failures)
    ensures Pass(SystemOf(document), oracle,
                 Snapshot(document, InitialValues(document, Nodes(document), failures), failures),
                 set f | f in Formulas(document) && f !in failures)
  {
    var s := Snapshot(document, InitialValues(document, Nodes(document), failures), failures);
    forall c | c in Nodes(document) ensures StartsRight(document, s, c) {
      NodeAfterPhases(document, failures, c);
    }
    forall c | c in failures ensures c in Nodes(document) {
      assert c in CycleGraph(document) ==> c in Nodes(document);
    }
    StartOfPass(oracle, document, s);
    UnfailedAreFree(document, s);
  }

  lemma UnfailedAreFree(document: Document, s: Snapshot)
    requires forall c :: c in Nodes(document) ==> StartsRight(document, s, c)
    ensures (set f | f in Formulas(document) && f !in s.failures) == SystemOf(document).free.Keys
  {
    forall f ensures f in Formulas(document) && f !in s.failures <==> f in SystemOf(document).free {
      if f in Nodes(document) { assert StartsRight(document, s, f); }
    }
  }

  lemma StartOfPass(oracle: Oracle, document: Document, s: Snapshot)
    requires s.document == document
    requires s.values.Keys <= Nodes(document) && s.failures.Keys <= Nodes(document)
    requires forall c :: c in Nodes(document) ==> StartsRight(document, s, c)
    ensures Pass(SystemOf(document), oracle, s, SystemOf(document).free.Keys)
  {
    var y := SystemOf(document);
    SystemNodes(document);
    forall c | c in y.fixed ensures Settles(y, oracle, s, c) && c !in y.free {
      assert StartsRight(document, s, c);
    }
    forall c | c in y.free ensures c !in s.values && c !in s.failures {
      assert StartsRight(document, s, c);
    }
  }

  lemma NodeAfterPhases(document: Document, failures: FailureMap, c: FieldRef)
    requires AddsCycles(CycleGraph(document), PregraphMap(document, Nodes(document)), failures)
    requires c in Nodes(document)
    ensures match FixedOutcome(document, c)
      case Some(Ok(number)) => c !in failures && Stored(document, c) == Some(NumberValue(number))
      case Some(Err(failure)) => c in failures && failures[c] == failure
      case None => c !in failures && IsFormula(document, c)
  {
    assert c in CycleGraph(document) <==> c in Eligible(document);
  }

  lemma PregraphLeavesEligible(document: Document, failures: FailureMap)
    requires failures == PregraphMap(document, Nodes(document))
    ensures (set f | f in Formulas(document) && f !in failures) == Eligible(document)
  {
    forall f | f in Formulas(document) ensures f in failures <==> PregraphFailure(document, f).Some? {
    }
  }

  // The whole calculation: pregraph failures, cycles, numbers, then every
  // remaining formula.
  method FullCalculation(rules: Rules, document: Document)
      returns (nodes: set<FieldRef>, values: ValueMap, failures: FailureMap, graph: DependencyGraph)
    requires Coherent(document)
    ensures nodes == Nodes(document) && Solves(rules, Snapshot(document, values, failures))
    ensures fresh(graph) && Exact(graph.View(), document)
  {
    nodes := Nodes(document);
    var formulas := Formulas(document);
    graph := DependencyGraph.New(document);
    failures := PregraphFailures(document, nodes);
    PregraphLeavesEligible(document, failures);
    failures := AssignCycleFailures(formulas, graph.View(), failures, document);
    values := InitialValues(document, nodes, failures);
    PhasesStartPass(OracleOf(rules), document, failures);
    values, failures := EvaluateRemainingFormulas(rules, document, formulas, graph.View(), values, failures);
  }
}
