/**
 Formula state kept across edits: an update recomputes only the dirty fields
 and ends in the state a rebuild of the new document would make.
 */
module Retained {
  import opened Model
  import opened Evaluator
  import opened Graphs
  import opened Pregraph
  import opened DependencyGraphs
  import opened Systems
  import opened Solutions
  import opened Scheduling
  import opened Calculations
  import opened Coverage
  import opened RootImpact

  // ---- A calculation that starts from a solution of the old document ----

  function DirtyNodes(document: Document, dirty: set<FieldRef>): set<FieldRef> {
    set c | c in dirty && CalculationValue(document, c).Some?
  }

  lemma DirtyNodesAreNodes(document: Document, dirty: set<FieldRef>)
    ensures DirtyNodes(document, dirty) == Nodes(document) * dirty
  {
    forall c ensures c in DirtyNodes(document, dirty) <==> c in Nodes(document) * dirty {
      InCells(document, c);
    }
  }

  // The records once the dirty phases ran: clean cells as they were, dirty ones
  // as a calculation starts them.
  ghost predicate Restarted(edit: Edit, s: Snapshot, t: Snapshot) {
    && AgreeOffDirty(edit, s, t)
    && (forall c :: c in edit.dirty && c !in Nodes(edit.after) ==> c !in t.values && c !in t.failures)
    && (forall c :: c in edit.dirty && c in Nodes(edit.after) ==> StartsRight(edit.after, t, c))
  }

  lemma CleanStaysSettled(rules: Rules, edit: Edit, s: Snapshot, t: Snapshot, c: FieldRef)
    requires Sound(edit) && Coherent(edit.after) && Solves(rules, s) && AgreeOffDirty(edit, s, t)
    requires c in Nodes(edit.after) && c !in edit.dirty
    ensures Settles(SystemOf(edit.after), OracleOf(rules), t, c)
  {
    UndisturbedOutcome(rules, edit, s, t, c);
    assert RecordsOutcome(rules, s, c) && AgreesAt(s, t, c);
    OutcomeIsOracle(rules, t, c);
  }

  lemma DirtySettled(rules: Rules, edit: Edit, s: Snapshot, t: Snapshot, c: FieldRef)
    requires Restarted(edit, s, t) && c in Nodes(edit.after) && c in edit.dirty
    ensures c in SystemOf(edit.after).fixed ==> Settles(SystemOf(edit.after), OracleOf(rules), t, c)
    ensures c in SystemOf(edit.after).free <==> IsFormula(edit.after, c) && c !in t.failures && c !in t.values
    ensures c in SystemOf(edit.after).free <==> IsFormula(edit.after, c) && c !in t.failures
  {
    assert StartsRight(edit.after, t, c);
    OutcomeIsOracle(rules, t, c);
  }

  lemma OnlyNodesRestarted(rules: Rules, edit: Edit, s: Snapshot, t: Snapshot)
    requires Sound(edit) && Solves(rules, s) && Restarted(edit, s, t)
    ensures OnlyNodes(SystemOf(edit.after), t)
  {
    SystemNodes(edit.after);
    forall c | c in t.values || c in t.failures ensures c in Nodes(edit.after) {
      if c !in edit.dirty {
        assert AgreesAt(s, t, c);
        SameStored(edit, c);
      }
    }
  }

  // No clean node reads a dirty one, so a calculation of the dirty formulas can
  // start from the retained records.
  lemma RestartIsPass(rules: Rules, edit: Edit, s: Snapshot, t: Snapshot, pending: set<FieldRef>)
    requires Sound(edit) && Coherent(edit.after) && Solves(rules, s) && Restarted(edit, s, t)
    requires forall c :: c in pending <==> c in Nodes(edit.after) && c in edit.dirty && IsFormula(edit.after, c) && c !in t.failures
    ensures Pass(SystemOf(edit.after), OracleOf(rules), t, pending)
  {
    var y, oracle := SystemOf(edit.after), OracleOf(rules);
    SystemNodes(edit.after);
    OnlyNodesRestarted(rules, edit, s, t);
    forall c | c in pending ensures c in y.free && c !in t.values && c !in t.failures {
      DirtySettled(rules, edit, s, t, c);
    }
    forall c | (c in y.fixed || c in y.free) && c !in pending ensures Settles(y, oracle, t, c) {
      assert c in Nodes(edit.after);
      if c in edit.dirty {
        DirtySettled(rules, edit, s, t, c);
      } else {
        CleanStaysSettled(rules, edit, s, t, c);
      }
    }
    forall c | c in y.free && c !in pending ensures y.free[c] !! pending {
      FreeIsFormula(edit.after, c);
      if c in edit.dirty {
        DirtySettled(rules, edit, s, t, c);
        assert false;
      } else {
        SameDependencies(edit, c);
      }
    }
  }

  // The dirty phases restart the calculation.
  lemma PhasesRestart(edit: Edit, s: Snapshot, kept: Snapshot, failures: FailureMap)
    requires Sound(edit) && s.document == edit.before
    requires kept == Snapshot(edit.after, s.values - edit.dirty, s.failures - edit.dirty)
    requires AddsCycles(FormulaGraph(edit.after, DirtyEligible(edit)),
                        kept.failures + PregraphMap(edit.after, DirtyNodes(edit.after, edit.dirty)), failures)
    ensures Restarted(edit, s, Snapshot(edit.after,
      kept.values + InitialValues(edit.after, DirtyNodes(edit.after, edit.dirty), failures), failures))
  {
    var nodes := DirtyNodes(edit.after, edit.dirty);
    var t := Snapshot(edit.after, kept.values + InitialValues(edit.after, nodes, failures), failures);
    DirtyNodesAreNodes(edit.after, edit.dirty);
    forall c | c !in edit.dirty ensures AgreesAt(s, t, c) {
      assert c !in FormulaGraph(edit.after, DirtyEligible(edit));
    }
    forall c | c in edit.dirty && c !in Nodes(edit.after) ensures c !in t.values && c !in t.failures {
      assert c !in FormulaGraph(edit.after, DirtyEligible(edit));
    }
    forall c | c in edit.dirty && c in Nodes(edit.after) ensures StartsRight(edit.after, t, c) {
      DirtyNodeStartsRight(edit, kept.failures, failures, t, c);
    }
  }

  lemma DirtyNodeStartsRight(edit: Edit, kept: FailureMap, failures: FailureMap, t: Snapshot, c: FieldRef)
    requires Sound(edit) && c in edit.dirty && c in Nodes(edit.after)
    requires kept.Keys !! edit.dirty && t.document == edit.after && t.failures == failures
    requires AddsCycles(FormulaGraph(edit.after, DirtyEligible(edit)),
                        kept + PregraphMap(edit.after, DirtyNodes(edit.after, edit.dirty)), failures)
    requires c in t.values <==> c in InitialValues(edit.after, DirtyNodes(edit.after, edit.dirty), failures)
    requires c in t.values ==> t.values[c] == InitialValues(edit.after, DirtyNodes(edit.after, edit.dirty), failures)[c]
    ensures StartsRight(edit.after, t, c)
  {
    DirtyNodesAreNodes(edit.after, edit.dirty);
    var g := FormulaGraph(edit.after, DirtyEligible(edit));
    InCells(edit.after, c);
    assert c in g <==> c in DirtyEligible(edit);
    if c in DirtyEligible(edit) {
      DirtyCycles(edit, c);
    }
  }

  lemma EligibleIsDirtyEligible(edit: Edit, kept: FailureMap, formulas: set<FieldRef>)
    requires kept.Keys !! edit.dirty
    requires forall f :: f in formulas <==> f in DirtyNodes(edit.after, edit.dirty) && IsFormula(edit.after, f)
    ensures formulas <= Formulas(edit.after)
    ensures var failures := kept + PregraphMap(edit.after, DirtyNodes(edit.after, edit.dirty));
      (set f | f in formulas && f !in failures) == DirtyEligible(edit)
  {
    DirtyNodesAreNodes(edit.after, edit.dirty);
    forall f ensures f in formulas <==> f in Formulas(edit.after) && f in edit.dirty {
      InCells(edit.after, f);
    }
  }

  // ---- What a reader of the state sees ----

  datatype Projection = Published(number: Number) | Failure(failure: CalculationFailure) | Unavailable

  // node_projection: values are published only while nothing fails.
  function ProjectionOf(values: ValueMap, failures: FailureMap, c: FieldRef): Projection {
    if failures != map[] then
      if c in failures then Failure(failures[c]) else Unavailable
    else
      if c in values then Published(values[c]) else Unavailable
  }

  // The key's entry was changed, added or removed.
  predicate EntryChanged<K, V(==)>(m: map<K, V>, n: map<K, V>, key: K) {
    (key in m) != (key in n) || (key in m && m[key] != n[key])
  }

  // The formulas reported: those whose failure changed while something fails
  // before and after, those whose value changed while nothing does, and all
  // formulas of either document when the calculation starts or stops failing.
  ghost predicate Reports(s: Snapshot, t: Snapshot, changed: set<FieldRef>) {
    var formulas := Formulas(s.document) + Formulas(t.document);
    if s.failures != map[] && t.failures != map[] then
      forall f :: f in changed <==> f in formulas && EntryChanged(s.failures, t.failures, f)
    else if s.failures == map[] && t.failures == map[] then
      forall f :: f in changed <==> f in formulas && EntryChanged(s.values, t.values, f)
    else changed == formulas
  }

  lemma DirtyReports(edit: Edit, s: Snapshot, t: Snapshot, changed: set<FieldRef>)
    requires AgreeOffDirty(edit, s, t)
    requires var formulas := Formulas(s.document) + Formulas(t.document);
      changed == if (s.failures != map[]) == (t.failures != map[])
        then set f | f in formulas * edit.dirty && ProjectionOf(s.values, s.failures, f) != ProjectionOf(t.values, t.failures, f)
        else formulas
    ensures Reports(s, t, changed)
  {
    if (s.failures != map[]) == (t.failures != map[]) {
      forall f | f !in edit.dirty ensures !EntryChanged(s.failures, t.failures, f) && !EntryChanged(s.values, t.values, f) {
        assert AgreesAt(s, t, f);
      }
    }
  }

  datatype Transition = Transition(affectedCalculations: set<FieldRef>, changedCalculationProjections: set<FieldRef>)

  // An edit without roots leaves every record right.
  lemma NoRootsNoChange(rules: Rules, before: Document, after: Document, v: Edges, values: ValueMap, failures: FailureMap)
    requires Covers(before, after, {}) && Coherent(after)
    requires Solves(rules, Snapshot(before, values, failures)) && Exact(v, before)
    ensures Nodes(before) == Nodes(after) && Formulas(before) == Formulas(after)
    ensures Solves(rules, Snapshot(after, values, failures)) && Exact(v, after)
    ensures Promoted(before, after, {}) == {}
  {
    var edit := Edit(before, after, {}, {}, {});
    NoRootsIsSound(edit);
    forall c ensures (c in Nodes(before) <==> c in Nodes(after)) && (c in Formulas(before) <==> c in Formulas(after)) {
      SameStored(edit, c);
    }
    NoRootsSolves(rules, edit, values, failures);
    NoRootsSameGraph(before, after, v);
  }

  lemma NoRootsIsSound(edit: Edit)
    requires Covers(edit.before, edit.after, {}) && edit.roots == edit.promoted == edit.dirty == {}
    ensures Sound(edit) && Promoted(edit.before, edit.after, {}) == {}
  {
    assert Promoted(edit.before, edit.after, {}) == {};
    forall f ensures ColumnsUnmoved(edit.before, edit.after, f) {
      UnpromotedColumnsUnmoved(edit.before, edit.after, {}, f);
    }
  }

  lemma NoRootsSolves(rules: Rules, edit: Edit, values: ValueMap, failures: FailureMap)
    requires Sound(edit) && edit.dirty == {} && Coherent(edit.after) && Nodes(edit.before) == Nodes(edit.after)
    requires Solves(rules, Snapshot(edit.before, values, failures))
    ensures Solves(rules, Snapshot(edit.after, values, failures))
  {
    var s, t := Snapshot(edit.before, values, failures), Snapshot(edit.after, values, failures);
    assert AgreeOffDirty(edit, s, t);
    forall c | c in Nodes(edit.after) ensures RecordsOutcome(rules, t, c) {
      UndisturbedOutcome(rules, edit, s, t, c);
      assert RecordsOutcome(rules, s, c);
    }
  }

  lemma NoRootsSameGraph(before: Document, after: Document, v: Edges)
    requires Covers(before, after, {}) && Exact(v, before)
    ensures Exact(v, after)
  {
    ExactIsUnderWay(v, before, after);
    FormulasAreReplaced(v, before, after, {});
    forall k ensures Rows(before, k) == Rows(after, k) {
      if Rows(before, k) != Rows(after, k) { MovedSchemaIsNamed(before, after, {}, k); assert false; }
    }
    forall k | k in v.columnSlots ensures ExactColumn(v.columnSlots, v.slotColumns, after, k) {
      assert ExactColumn(v.columnSlots, v.slotColumns, before, k);
    }
    SchemasAreRemembered(v.entitySchemas, v.entitySchemas, before, after, {}, {});
  }

  class RetainedCalculationState {
    var nodes: set<FieldRef>
    var values: ValueMap
    var failures: FailureMap
    var graph: DependencyGraph

    // The four parts are those of a fresh calculation of the document.
    ghost predicate Reflects(rules: Rules, document: Document)
      reads this, graph
    {
      && nodes == Nodes(document)
      && Solves(rules, Snapshot(document, values, failures))
      && Exact(graph.View(), document)
    }

    constructor (nodes: set<FieldRef>, values: ValueMap, failures: FailureMap, graph: DependencyGraph)
      ensures this.nodes == nodes && this.values == values && this.failures == failures && this.graph == graph
    {
      this.nodes, this.values, this.failures, this.graph := nodes, values, failures, graph;
    }

    static method Rebuild(rules: Rules, document: Document) returns (state: RetainedCalculationState)
      requires Coherent(document)
      ensures fresh(state) && fresh(state.graph) && state.Reflects(rules, document)
    {
      var nodes, values, failures, graph := FullCalculation(rules, document);
      state := new RetainedCalculationState(nodes, values, failures, graph);
    }

    // Recompute the dirty fields and their old- and new-graph dependents.
    method Update(rules: Rules, document: Document, roots: set<FieldRef>, ghost before: Document) returns (transition: Transition)
      requires Reflects(rules, before) && Coherent(document) && Covers(before, document, roots)
      modifies this, graph
      ensures graph == old(graph) && Reflects(rules, document)
      ensures Closes(DependencyMap(before), Promoted(before, document, roots), transition.affectedCalculations)
      ensures Closes(DependencyMap(document), Promoted(before, document, roots), transition.affectedCalculations)
      ensures Reports(old(Snapshot(before, values, failures)), Snapshot(document, values, failures),
                      transition.changedCalculationProjections)
    {
      if roots == {} {
        NoRootsNoChange(rules, before, document, graph.View(), values, failures);
        return Transition({}, {});
      }
      var oldFormulas := graph.referenceUses.Keys;
      var promoted := WithColumnTotalRoots(document, graph, roots, before);
      var dirty, dependents := UpdateDependencyImpact(graph, document, promoted, roots, before);
      var changed := RecomputeAndReport(rules, document, promoted, dirty, oldFormulas, Edit(before, document, roots, promoted, dirty));
      transition := Transition(dependents, changed);
    }

    method RecomputeAndReport(
      rules: Rules, document: Document, promoted: set<FieldRef>, dirty: set<FieldRef>, oldFormulas: set<FieldRef>, ghost edit: Edit
    ) returns (changed: set<FieldRef>)
      requires Sound(edit) && promoted == edit.promoted && dirty == edit.dirty && document == edit.after && Coherent(document)
      requires nodes == Nodes(edit.before) && Solves(rules, Snapshot(edit.before, values, failures))
      requires Exact(graph.View(), document) && oldFormulas == Formulas(edit.before)
      modifies this`nodes, this`values, this`failures
      ensures nodes == Nodes(document) && Solves(rules, Snapshot(document, values, failures))
      ensures Reports(old(Snapshot(edit.before, values, failures)), Snapshot(document, values, failures), changed)
    {
      var oldValues, oldFailures := values, failures;
      RecomputeDirty(rules, document, promoted, dirty, edit);
      changed := ChangedProjections(oldValues, oldFailures, oldFormulas + graph.referenceUses.Keys, dirty, edit);
    }

    // The formulas whose published projection the edit changed; all of them when
    // the whole state starts or stops failing.
    method ChangedProjections(
      oldValues: ValueMap, oldFailures: FailureMap, formulas: set<FieldRef>, dirty: set<FieldRef>, ghost edit: Edit
    ) returns (changed: set<FieldRef>)
      requires formulas == Formulas(edit.before) + Formulas(edit.after) && dirty == edit.dirty
      requires AgreeOffDirty(edit, Snapshot(edit.before, oldValues, oldFailures), Snapshot(edit.after, values, failures))
      ensures Reports(Snapshot(edit.before, oldValues, oldFailures), Snapshot(edit.after, values, failures), changed)
    {
      if (oldFailures != map[]) == (failures != map[]) {
        changed := set f | f in formulas * dirty && ProjectionOf(oldValues, oldFailures, f) != ProjectionOf(values, failures, f);
      } else {
        changed := formulas;
      }
      DirtyReports(edit, Snapshot(edit.before, oldValues, oldFailures), Snapshot(edit.after, values, failures), changed);
    }

    method RecomputeNodes(document: Document, promoted: set<FieldRef>, ghost edit: Edit)
      requires Sound(edit) && promoted == edit.promoted && document == edit.after && nodes == Nodes(edit.before)
      modifies this`nodes
      ensures nodes == Nodes(document)
    {
      var work := promoted;
      while work != {}
        invariant work <= promoted
        invariant forall c :: c in nodes <==> c in Nodes(if c in promoted - work then document else edit.before)
      {
        var root :| root in work;
        InCells(document, root);
        if CalculationValue(document, root).Some? {
          nodes := nodes + {root};
        } else {
          nodes := nodes - {root};
        }
        work := work - {root};
      }
      forall c ensures c in nodes <==> c in Nodes(document) {
        if c !in promoted { UnpromotedNode(edit, c); }
      }
    }

    method RecomputeDirty(rules: Rules, document: Document, promoted: set<FieldRef>, dirty: set<FieldRef>, ghost edit: Edit)
      requires Sound(edit) && promoted == edit.promoted && dirty == edit.dirty && document == edit.after && Coherent(document)
      requires nodes == Nodes(edit.before) && Solves(rules, Snapshot(edit.before, values, failures))
      requires Exact(graph.View(), document)
      modifies this`nodes, this`values, this`failures
      ensures nodes == Nodes(document) && Solves(rules, Snapshot(document, values, failures))
      ensures AgreeOffDirty(edit, old(Snapshot(edit.before, values, failures)), Snapshot(document, values, failures))
    {
      RecomputeNodes(document, promoted, edit);
      values, failures := Recompute(rules, document, dirty, graph.View(), values, failures, edit);
    }
  }

  lemma UnpromotedNode(edit: Edit, c: FieldRef)
    requires Sound(edit) && c !in edit.promoted
    ensures c in Nodes(edit.before) <==> c in Nodes(edit.after)
  {
    InCells(edit.before, c);
    InCells(edit.after, c);
  }

  // The record part of recompute_dirty.
  method Recompute(
    rules: Rules, document: Document, dirty: set<FieldRef>, v: Edges, values: ValueMap, failures: FailureMap, ghost edit: Edit
  ) returns (values': ValueMap, failures': FailureMap)
    requires Sound(edit) && dirty == edit.dirty && document == edit.after && Coherent(document) && Exact(v, document)
    requires Solves(rules, Snapshot(edit.before, values, failures))
    ensures Solves(rules, Snapshot(document, values', failures'))
    ensures AgreeOffDirty(edit, Snapshot(edit.before, values, failures), Snapshot(document, values', failures'))
  {
    ghost var s := Snapshot(edit.before, values, failures);
    var dirtyNodes := DirtyNodes(document, dirty);
    var dirtyFormulas := set f | f in dirtyNodes && IsFormula(document, f);
    values', failures' := values - dirty, failures - dirty;
    ghost var kept := Snapshot(document, values', failures');
    EligibleIsDirtyEligible(edit, kept.failures, dirtyFormulas);
    var pregraph := PregraphFailures(document, dirtyNodes);
    failures' := AssignCycleFailures(dirtyFormulas, v, failures' + pregraph, document);
    PhasesRestart(edit, s, kept, failures');
    values' := values' + InitialValues(document, dirtyNodes, failures');
    ghost var t := Snapshot(document, values', failures');
    DirtyNodesAreNodes(document, dirty);
    RestartIsPass(rules, edit, s, t, set f | f in dirtyFormulas && f !in failures');
    values', failures' := EvaluateRemainingFormulas(rules, document, dirtyFormulas, v, values', failures');
    StillOffDirty(edit, s, t, Snapshot(document, values', failures'), set f | f in dirtyFormulas && f !in t.failures);
  }

  lemma StillOffDirty(edit: Edit, s: Snapshot, t: Snapshot, u: Snapshot, pending: set<FieldRef>)
    requires AgreeOffDirty(edit, s, t) && pending <= edit.dirty && OthersKept(pending, t, u) && u.document == edit.after
    ensures AgreeOffDirty(edit, s, u)
  {
    forall c | c !in edit.dirty ensures AgreesAt(s, u, c) {
      assert AgreesAt(s, t, c) && AgreesAt(t, u, c);
    }
  }

  // ---- Runs of edits ----

  // Two states of one document are the same in all four parts.
  lemma StatesOfOneDocument(rules: Rules, document: Document, a: RetainedCalculationState, b: RetainedCalculationState)
    requires Coherent(document) && a.Reflects(rules, document) && b.Reflects(rules, document)
    ensures a.nodes == b.nodes && a.values == b.values && a.failures == b.failures && a.graph.View() == b.graph.View()
  {
    OneSolution(rules, Snapshot(document, a.values, a.failures), Snapshot(document, b.values, b.failures));
    ExactIsUnique(a.graph.View(), b.graph.View(), document);
  }

  datatype Revision = Revision(document: Document, roots: set<FieldRef>)

  // Every revision follows the one before it by a covered edit.
  ghost predicate CoveredRun(first: Document, revisions: seq<Revision>) {
    Coherent(first) && forall i :: 0 <= i < |revisions| ==> CoveredStep(DocumentAt(first, revisions, i), revisions[i])
  }

  ghost predicate CoveredStep(before: Document, revision: Revision) {
    Coherent(revision.document) && Covers(before, revision.document, revision.roots)
  }

  // The document after the first i revisions.
  function DocumentAt(first: Document, revisions: seq<Revision>, i: nat): Document
    requires i <= |revisions|
  {
    if i == 0 then first else revisions[i - 1].document
  }

  // After any run of covered edits the retained state is the rebuilt state.
  method Replay(rules: Rules, first: Document, revisions: seq<Revision>)
      returns (retained: RetainedCalculationState, rebuilt: RetainedCalculationState)
    requires CoveredRun(first, revisions)
    ensures retained.nodes == rebuilt.nodes && retained.values == rebuilt.values && retained.failures == rebuilt.failures
    ensures retained.graph.View() == rebuilt.graph.View()
    ensures rebuilt.Reflects(rules, DocumentAt(first, revisions, |revisions|))
  {
    retained := RetainedCalculationState.Rebuild(rules, first);
    ghost var document := first;
    for i := 0 to |revisions|
      invariant fresh(retained) && fresh(retained.graph) && retained.Reflects(rules, document)
      invariant document == DocumentAt(first, revisions, i)
    {
      assert CoveredStep(document, revisions[i]);
      var transition := retained.Update(rules, revisions[i].document, revisions[i].roots, document);
      document := revisions[i].document;
    }
    rebuilt := RetainedCalculationState.Rebuild(rules, DocumentAt(first, revisions, |revisions|));
    StatesOfOneDocument(rules, document, retained, rebuilt);
  }
}
