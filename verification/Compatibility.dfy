/**
 The single error of the older interface: the root cause behind the first
 failed node, and for a cycle a witness path.
 */
module Compatibility {
  import opened Model
  import opened Criteria
  import opened FieldOrder
  import opened Expressions
  import opened Evaluator
  import opened Locality
  import opened Graphs
  import Components
  import opened Pregraph
  import opened DependencyGraphs
  import opened Systems
  import opened Solutions
  import opened Propagation

  datatype CalculationError =
    | InvalidFormula(formula: FieldRef)
    | MissingReference(reference: FieldRef)
    | NonNumericReference(reference: FieldRef)
    | CycleError(path: seq<FieldRef>)
    | EmptyAggregateError(formula: FieldRef)
    | DivisionByZeroError(formula: FieldRef)
    | NonFiniteError(field: FieldRef)
    | InvalidColumnError(column: ColumnRef)

  // ---- The failures an evaluation can end in ----

  // Never a cycle or a pregraph failure, and never an empty blame.
  ghost predicate EvaluationFailure<T>(r: Result<T>) {
    r.Err? ==>
      || r.failure.TypeMismatch? || r.failure.DivisionByZero? || r.failure.EmptyAggregate? || r.failure.NonFiniteResult?
      || (r.failure.FailedDependencies? && r.failure.dependencies != {})
  }

  lemma {:induction false} RowFails(rules: Rules, s: Snapshot, columns: seq<ColumnRef>, tests: seq<CriterionTest>, row: EntityId, k: nat)
    requires |columns| == |tests| && k <= |tests|
    ensures EvaluationFailure(RowMatches(rules, s, columns, tests, row, k))
    decreases |tests| - k
  {
    if k < |tests| { RowFails(rules, s, columns, tests, row, k + 1); }
  }

  lemma {:induction false} RowsFail(
    rules: Rules, s: Snapshot, aggregate: ConditionalAggregate, columns: seq<ColumnRef>, tests: seq<CriterionTest>,
    rows: seq<EntityId>, sofar: Matched
  )
    requires |columns| == |tests|
    ensures EvaluationFailure(WalkRows(rules, s, aggregate, columns, tests, rows, sofar))
    decreases |rows|
  {
    if rows != [] {
      RowFails(rules, s, columns, tests, rows[0], 0);
      var next := WalkRow(rules, s, aggregate, columns, tests, rows[0], sofar);
      if next.Ok? { RowsFail(rules, s, aggregate, columns, tests, rows[1..], next.value); }
    }
  }

  lemma {:induction false} NumberFails(rules: Rules, s: Snapshot, owner: FieldRef, e: Expression)
    ensures EvaluationFailure(NumberOf(rules, s, owner, e))
    decreases e, 1
  {
    match e {
      case If(condition, thenValue, elseValue) =>
        ConditionFails(rules, s, owner, condition);
        NumberFails(rules, s, owner, thenValue);
        NumberFails(rules, s, owner, elseValue);
      case ColumnConditional(aggregate, criteria) =>
        if criteria != [] {
          TestsFail(rules, s, owner, criteria, e);
          var tests := TestsOf(rules, s, owner, criteria, e);
          if tests.Ok? {
            var columns := CriterionColumns(criteria);
            RowsFail(rules, s, aggregate, columns, tests.value, RowOrder(s.document, columns[0].schema), Matched(0, []));
          }
        }
      case Round(operand, _) => NumberFails(rules, s, owner, operand);
      case Binary(_, left, right) =>
        NumberFails(rules, s, owner, left);
        NumberFails(rules, s, owner, right);
      case _ =>
    }
  }

  lemma {:induction false} TestsFail(rules: Rules, s: Snapshot, owner: FieldRef, criteria: seq<ColumnCriterion>, parent: Expression)
    requires forall k :: k in criteria && k.operand.Some? ==> k.operand.value < parent
    ensures EvaluationFailure(TestsOf(rules, s, owner, criteria, parent))
    decreases parent, 0, |criteria|
  {
    if criteria != [] {
      assert criteria[0] in criteria && forall l :: l in criteria[1..] ==> l in criteria;
      if criteria[0].operand.Some? { NumberFails(rules, s, owner, criteria[0].operand.value); }
      TestsFail(rules, s, owner, criteria[1..], parent);
    }
  }

  lemma {:induction false} ConditionFails(rules: Rules, s: Snapshot, owner: FieldRef, e: Expression)
    ensures EvaluationFailure(ConditionOf(rules, s, owner, e))
    decreases e, 1
  {
    match e {
      case Compare(_, left, right) =>
        NumberFails(rules, s, owner, left);
        NumberFails(rules, s, owner, right);
      case Logical(connective, arguments) => ConditionsFail(rules, s, owner, connective, arguments, connective.And?, e);
      case Not(operand) => ConditionFails(rules, s, owner, operand);
      case _ =>
    }
  }

  lemma {:induction false} ConditionsFail(
    rules: Rules, s: Snapshot, owner: FieldRef, connective: Connective, arguments: seq<Expression>, sofar: bool, parent: Expression
  )
    requires forall c :: c in arguments ==> c < parent
    ensures EvaluationFailure(ConditionsOf(rules, s, owner, connective, arguments, sofar, parent))
    decreases parent, 0, |arguments|
  {
    if arguments != [] {
      assert arguments[0] in arguments && forall c :: c in arguments[1..] ==> c in arguments;
      ConditionFails(rules, s, owner, arguments[0]);
      var first := ConditionOf(rules, s, owner, arguments[0]);
      if first.Ok? {
        ConditionsFail(rules, s, owner, connective, arguments[1..],
                       if connective.And? then sofar && first.value else sofar || first.value, parent);
      }
    }
  }

  // What a recorded failure says about its node, in every document.
  ghost predicate FailureIsFormed(document: Document, f: FieldRef, failure: CalculationFailure) {
    match failure
    case InvalidReferences(targets) => targets != map[]
    case InvalidColumn(columns) => columns != map[]
    case Cycle(members) => f in Eligible(document) && IsCyclic(document, f) && members == Class(CycleGraph(document), f)
    case FailedDependencies(dependencies) => dependencies != {}
    case _ => true
  }

  ghost predicate AreFormed(document: Document, failures: FailureMap) {
    forall f :: f in failures ==> FailureIsFormed(document, f, failures[f])
  }

  // Where every formula declares what it reads, it blames declared reads only.
  ghost predicate FailureIsKnown(document: Document, f: FieldRef, failure: CalculationFailure) {
    && FailureIsFormed(document, f, failure)
    && (failure.FailedDependencies? ==>
          f in SystemOf(document).free && failure.dependencies <= SystemOf(document).free[f])
  }

  lemma OutcomeIsFormed(rules: Rules, s: Snapshot, f: FieldRef)
    requires f in Formulas(s.document)
    ensures EvaluateAt(rules, s, f).Err? ==> FailureIsFormed(s.document, f, EvaluateAt(rules, s, f).failure)
  {
    NumberFails(rules, s, f, FormulaAt(s.document, f));
  }

  lemma RecordedIsFormed(rules: Rules, s: Snapshot, f: FieldRef)
    requires Solves(rules, s) && f in s.failures
    ensures FailureIsFormed(s.document, f, s.failures[f])
  {
    assert RecordsOutcome(rules, s, f);
    match FixedOutcome(s.document, f) {
      case Some(_) => FixedFailure(s.document, f);
      case None => OutcomeIsFormed(rules, s, f);
    }
  }

  lemma RecordedFailure(rules: Rules, s: Snapshot, f: FieldRef)
    requires Coherent(s.document) && Solves(rules, s) && f in s.failures
    ensures FailureIsKnown(s.document, f, s.failures[f])
  {
    RecordedIsFormed(rules, s, f);
    assert RecordsOutcome(rules, s, f);
    match FixedOutcome(s.document, f) {
      case Some(_) => FixedFailure(s.document, f);
      case None =>
        assert FailuresAreStored(s);
        OutcomeBlames(rules, s, f, FormulaAt(s.document, f));
    }
  }

  // The failures a calculation starts from are formed, and each evaluation
  // adds a formed one: so are those any run ends with.
  lemma PassIsFormed(rules: Rules, y: System, s: Snapshot, pending: set<FieldRef>)
    requires y == SystemOf(y.document) && Pass(y, OracleOf(rules), s, pending)
    ensures AreFormed(y.document, s.failures)
  {
    forall f | f in s.failures ensures FailureIsFormed(y.document, f, s.failures[f]) {
      assert Settles(y, OracleOf(rules), s, f);
      if f in y.fixed {
        FixedFailure(y.document, f);
      } else {
        FreeNodeReads(y.document, f);
        OutcomeIsFormed(rules, s, f);
      }
    }
  }

  lemma WithFormedOutcome(document: Document, s: Snapshot, f: FieldRef, outcome: Result<Number>)
    requires AreFormed(document, s.failures) && (outcome.Err? ==> FailureIsFormed(document, f, outcome.failure))
    ensures AreFormed(document, WithOutcome(s, f, outcome).failures) && WithOutcome(s, f, outcome).document == s.document
  {
  }

  lemma StepIsFormed(rules: Rules, y: System, s: Snapshot, f: FieldRef)
    requires y == SystemOf(y.document) && s.document == y.document && AreFormed(y.document, s.failures) && f in y.free
    ensures var next := WithOutcome(s, f, OracleOf(rules)(s, f));
      next.document == y.document && AreFormed(y.document, next.failures)
  {
    FreeNodeReads(y.document, f);
    OutcomeIsFormed(rules, s, f);
    WithFormedOutcome(y.document, s, f, OracleOf(rules)(s, f));
  }

  lemma {:induction false} RunIsFormed(rules: Rules, y: System, s: Snapshot, pending: set<FieldRef>, order: seq<FieldRef>)
    requires y == SystemOf(y.document) && s.document == y.document && AreFormed(y.document, s.failures)
    requires Schedules(y, pending, order)
    ensures AreFormed(y.document, Run(OracleOf(rules), s, order).failures)
    decreases |order|
  {
    if order != [] {
      StepIsFormed(rules, y, s, order[0]);
      RunIsFormed(rules, y, WithOutcome(s, order[0], OracleOf(rules)(s, order[0])), pending - {order[0]}, order[1..]);
    }
  }

  lemma FixedFailure(document: Document, f: FieldRef)
    requires f in Nodes(document) && FixedOutcome(document, f).Some? && FixedOutcome(document, f).value.Err?
    ensures FailureIsFormed(document, f, FixedOutcome(document, f).value.failure)
    ensures !FixedOutcome(document, f).value.failure.FailedDependencies?
  {
    if PregraphFailure(document, f).Some? {
      BadTargetsAreBad(document, f);
      if BadTargets(document, f) != {} {
        var c :| c in BadTargets(document, f);
        assert c in InvalidTargets(document, f);
      }
    }
  }

  // ---- The chain of blamed failures ----

  function FailedBlamed(failures: FailureMap, f: FieldRef): set<FieldRef>
    requires f in failures
  {
    match failures[f]
    case FailedDependencies(dependencies) => dependencies * failures.Keys
    case _ => {}
  }

  // The first blamed cell that itself failed.
  function NextBlamed(failures: FailureMap, f: FieldRef): Option<FieldRef>
    requires f in failures
  {
    if FailedBlamed(failures, f) == {} then None else Some(LeastCell(FailedBlamed(failures, f)))
  }

  // A failure blames a cell that failed too, and no such cell before it.
  ghost predicate BlamesFirst(failures: FailureMap, f: FieldRef, next: FieldRef)
    requires f in failures
  {
    match failures[f]
    case FailedDependencies(dependencies) =>
      && next in dependencies && next in failures
      && forall other :: other in dependencies && other in failures ==>
           next.entity < other.entity || (next.entity == other.entity && next.field <= other.field)
    case _ => false
  }

  // The next of a blame chain is the first blamed cell that failed; a chain ends
  // where none did.
  lemma NextBlamedMeans(failures: FailureMap, f: FieldRef, next: FieldRef)
    requires f in failures
    ensures NextBlamed(failures, f) == Some(next) <==> BlamesFirst(failures, f, next)
    ensures NextBlamed(failures, f) == None <==> forall other :: !BlamesFirst(failures, f, other)
  {
    var blamed := FailedBlamed(failures, f);
    forall other ensures other in blamed <==>
      failures[f].FailedDependencies? && other in failures[f].dependencies && other in failures
    {
    }
    if blamed != {} {
      var least := LeastCell(blamed);
      assert least in blamed && forall other :: other in blamed ==> AtMost(least, other);
      assert BlamesFirst(failures, f, least);
    }
    if BlamesFirst(failures, f, next) { assert next in blamed && AtMost(LeastCell(blamed), next); }
    forall other | BlamesFirst(failures, f, other) ensures other in blamed {
    }
  }

  ghost predicate IsChain(failures: FailureMap, chain: seq<FieldRef>) {
    && chain != []
    && (forall i :: 0 <= i < |chain| ==> chain[i] in failures)
    && forall i :: 0 <= i < |chain| - 1 ==> NextBlamed(failures, chain[i]) == Some(chain[i + 1])
  }

  lemma BlamedIsRead(rules: Rules, s: Snapshot, f: FieldRef)
    requires Coherent(s.document) && Solves(rules, s) && f in s.failures && NextBlamed(s.failures, f).Some?
    ensures var y := SystemOf(s.document); f in y.free && NextBlamed(s.failures, f).value in y.free[f]
  {
    RecordedFailure(rules, s, f);
  }

  ghost predicate GoesOn(failures: FailureMap, chain: seq<FieldRef>)
    requires IsChain(failures, chain)
  {
    var next := NextBlamed(failures, chain[|chain| - 1]);
    next.Some? ==> next.value !in chain
  }

  ghost predicate BlameLeads(g: Graph<FieldRef>, failures: FailureMap, f: FieldRef)
    requires f in failures
  {
    var next := NextBlamed(failures, f);
    next.Some? ==> f in g && (next.value in g ==> Edge(g, f, next.value))
  }

  // A chain that comes back to a node it passed is a cycle of blames.
  lemma RepeatIsCycle(g: Graph<FieldRef>, failures: FailureMap, chain: seq<FieldRef>) returns (f: FieldRef)
    requires IsChain(failures, chain) && !GoesOn(failures, chain)
    requires forall c :: c in failures ==> BlameLeads(g, failures, c)
    ensures f in g && OnCycle(g, f)
  {
    f := NextBlamed(failures, chain[|chain| - 1]).value;
    var k :| 0 <= k < |chain| && chain[k] == f;
    var cycle := chain[k..] + [f];
    forall i | k <= i < |chain| ensures chain[i] in g && BlameLeads(g, failures, chain[i]) {
      if i < |chain| - 1 { assert NextBlamed(failures, chain[i]) == Some(chain[i + 1]); }
    }
    forall i | 0 <= i < |cycle| - 1 ensures Edge(g, cycle[i], cycle[i + 1]) {
      assert cycle[i] == chain[k + i];
      assert NextBlamed(failures, cycle[i]) == Some(cycle[i + 1]);
    }
    assert IsPath(g, cycle);
    Components.PathReaches(g, cycle, 1, |cycle| - 1);
    assert Edge(g, cycle[0], cycle[1]);
  }

  // The failed-dependency outcomes form an acyclic graph.
  lemma ChainNeverRepeats(rules: Rules, s: Snapshot, chain: seq<FieldRef>)
    requires Coherent(s.document) && Solves(rules, s) && IsChain(s.failures, chain)
    ensures GoesOn(s.failures, chain)
  {
    var y := SystemOf(s.document);
    forall c | c in s.failures ensures BlameLeads(FreeGraph(y), s.failures, c) {
      if NextBlamed(s.failures, c).Some? { BlamedIsRead(rules, s, c); }
    }
    if !GoesOn(s.failures, chain) {
      var f := RepeatIsCycle(FreeGraph(y), s.failures, chain);
      FreeNodesAreAcyclic(s.document, f, y);
      assert false;
    }
  }

  // ---- Cycle witnesses ----

  // formula_dependencies_within.
  function DependenciesWithin(v: Edges, f: FieldRef, within: set<FieldRef>): set<FieldRef> {
    if f in v.referenceUses then DependenciesOf(v, f) * within else {}
  }

  ghost predicate ReadsWithin(v: Edges, g: Graph<FieldRef>, members: set<FieldRef>) {
    forall x, d :: x in members ==> (d in DependenciesWithin(v, x, members) <==> d in members && Edge(g, x, d))
  }

  lemma MembersReadWithin(v: Edges, document: Document, eligible: set<FieldRef>, members: set<FieldRef>)
    requires Exact(v, document) && members <= eligible <= Formulas(document)
    ensures ReadsWithin(v, FormulaGraph(document, eligible), members)
  {
    forall x, d | x in members
      ensures d in DependenciesWithin(v, x, members) <==> d in members && Edge(FormulaGraph(document, eligible), x, d)
    {
      OneExpansion(v, document, x);
      FormulaEdge(document, eligible, x, d);
    }
  }

  lemma FormulaEdge(document: Document, eligible: set<FieldRef>, x: FieldRef, d: FieldRef)
    requires x in eligible && eligible <= Formulas(document)
    ensures Edge(FormulaGraph(document, eligible), x, d) <==> d in eligible && d in Dependencies(document, x, FormulaAt(document, x))
  {
  }

  ghost predicate AllDistinct(path: seq<FieldRef>) {
    forall i, j :: 0 <= i < j < |path| ==> path[i] != path[j]
  }

  // A closed path of real edges inside the component that repeats nothing but
  // its start.
  ghost predicate IsWitness(g: Graph<FieldRef>, members: set<FieldRef>, start: FieldRef, path: seq<FieldRef>) {
    && |path| >= 2 && PathBetween(g, path, start, start)
    && (forall i :: 0 <= i < |path| ==> path[i] in members)
    && AllDistinct(path[1..])
  }

  // A breadth-first search under way: the path to every visited node.
  ghost predicate PathsKnown(
    g: Graph<FieldRef>, next: FieldRef, visited: set<FieldRef>, parents: map<FieldRef, FieldRef>, paths: map<FieldRef, seq<FieldRef>>
  ) {
    && next in visited && paths.Keys == visited && paths[next] == [next]
    && forall x :: x in visited ==> PathKnown(g, next, visited, parents, paths, x)
  }

  ghost predicate PathKnown(
    g: Graph<FieldRef>, next: FieldRef, visited: set<FieldRef>, parents: map<FieldRef, FieldRef>, paths: map<FieldRef, seq<FieldRef>>,
    x: FieldRef
  )
    requires paths.Keys == visited && x in visited
  {
    && PathBetween(g, paths[x], next, x) && AllDistinct(paths[x])
    && (forall i :: 0 <= i < |paths[x]| ==> paths[x][i] in visited)
    && (x != next ==> x in parents && parents[x] in visited && paths[x] == paths[parents[x]] + [x])
  }

  lemma VisitKeepsPaths(
    g: Graph<FieldRef>, next: FieldRef, visited: set<FieldRef>, parents: map<FieldRef, FieldRef>, paths: map<FieldRef, seq<FieldRef>>,
    node: FieldRef, dependency: FieldRef
  )
    requires PathsKnown(g, next, visited, parents, paths)
    requires node in visited && dependency !in visited && Edge(g, node, dependency)
    ensures PathsKnown(g, next, visited + {dependency}, parents[dependency := node], paths[dependency := paths[node] + [dependency]])
  {
    var more, paths' := visited + {dependency}, paths[dependency := paths[node] + [dependency]];
    assert PathKnown(g, next, visited, parents, paths, node);
    forall x | x in more ensures PathKnown(g, next, more, parents[dependency := node], paths', x) {
      if x != dependency {
        assert PathKnown(g, next, visited, parents, paths, x);
      }
    }
  }

  function Backwards(path: seq<FieldRef>): seq<FieldRef> {
    if path == [] then [] else Backwards(path[1..]) + [path[0]]
  }

  lemma {:induction false} BackwardsOfAppend(path: seq<FieldRef>, x: FieldRef)
    ensures Backwards(path + [x]) == [x] + Backwards(path)
  {
    if path == [] {
      assert path + [x] == [x];
    } else {
      assert (path + [x])[1..] == path[1..] + [x];
      BackwardsOfAppend(path[1..], x);
    }
  }

  lemma ParentPath(
    g: Graph<FieldRef>, next: FieldRef, visited: set<FieldRef>, parents: map<FieldRef, FieldRef>, paths: map<FieldRef, seq<FieldRef>>,
    x: FieldRef
  )
    requires PathsKnown(g, next, visited, parents, paths) && x in visited && x != next
    ensures x in parents && parents[x] in visited && PathKnown(g, next, visited, parents, paths, parents[x])
    ensures paths[parents[x]] != [] && |paths[parents[x]]| < |paths[x]|
    ensures paths[x] != [] && paths[x][..|paths[x]| - 1] == paths[parents[x]][..|paths[parents[x]]| - 1] + [parents[x]]
  {
    assert PathKnown(g, next, visited, parents, paths, x);
    assert PathKnown(g, next, visited, parents, paths, parents[x]);
    var p := paths[parents[x]];
    assert p == p[..|p| - 1] + [p[|p| - 1]];
  }

  lemma KnownPathEnds(
    g: Graph<FieldRef>, next: FieldRef, visited: set<FieldRef>, parents: map<FieldRef, FieldRef>, paths: map<FieldRef, seq<FieldRef>>,
    x: FieldRef
  )
    requires PathsKnown(g, next, visited, parents, paths) && x in visited
    ensures paths[x] != [] && paths[x] == paths[x][..|paths[x]| - 1] + [x]
    ensures paths[next][..|paths[next]| - 1] == []
  {
    assert PathKnown(g, next, visited, parents, paths, x);
  }

  lemma Regroup(a: seq<FieldRef>, x: FieldRef, b: seq<FieldRef>)
    ensures (a + [x]) + b == a + ([x] + b)
  {
  }

  // Follow the parents back to the first node.
  method PathTo(
    next: FieldRef, node: FieldRef, parents: map<FieldRef, FieldRef>, ghost g: Graph<FieldRef>, ghost visited: set<FieldRef>,
    ghost paths: map<FieldRef, seq<FieldRef>>
  ) returns (path: seq<FieldRef>)
    requires PathsKnown(g, next, visited, parents, paths) && node in visited
    ensures path == paths[node]
  {
    var last, reversePath := node, [node];
    KnownPathEnds(g, next, visited, parents, paths, node);
    while last != next
      invariant last in visited && paths[last] != []
      invariant paths[node] == paths[last][..|paths[last]| - 1] + Backwards(reversePath)
      decreases |paths[last]|
    {
      var parent := parents[last];
      ParentPath(g, next, visited, parents, paths, last);
      BackwardsOfAppend(reversePath, parent);
      Regroup(paths[parent][..|paths[parent]| - 1], parent, Backwards(reversePath));
      reversePath, last := reversePath + [parent], parent;
    }
    KnownPathEnds(g, next, visited, parents, paths, next);
    path := Backwards(reversePath);
  }

  lemma ClosesWitness(
    g: Graph<FieldRef>, members: set<FieldRef>, start: FieldRef, next: FieldRef, visited: set<FieldRef>,
    parents: map<FieldRef, FieldRef>, paths: map<FieldRef, seq<FieldRef>>, node: FieldRef
  )
    requires PathsKnown(g, next, visited, parents, paths) && visited <= members && start in members - visited
    requires Edge(g, start, next) && node in visited && Edge(g, node, start)
    ensures IsWitness(g, members, start, [start] + paths[node] + [start])
  {
    assert PathKnown(g, next, visited, parents, paths, node);
    var path := [start] + paths[node] + [start];
    assert path[1..] == paths[node] + [start];
    forall i | 0 <= i < |path| - 1 ensures Edge(g, path[i], path[i + 1]) {
      if 1 <= i < |paths[node]| { assert Edge(g, paths[node][i - 1], paths[node][i]); }
    }
  }

  // Everything a visited node that left the queue reads is visited.
  ghost predicate Expanded(g: Graph<FieldRef>, members: set<FieldRef>, visited: set<FieldRef>, x: FieldRef, but: set<FieldRef>) {
    forall d :: d in members && d !in but && Edge(g, x, d) ==> d in visited
  }

  ghost predicate AllExpanded(g: Graph<FieldRef>, members: set<FieldRef>, visited: set<FieldRef>, queue: seq<FieldRef>, but: FieldRef) {
    forall x :: x in visited && x !in queue && x != but ==> Expanded(g, members, visited, x, {})
  }

  // A breadth-first search between two nodes of its queue.
  ghost predicate Searching(
    g: Graph<FieldRef>, members: set<FieldRef>, start: FieldRef, next: FieldRef, visited: set<FieldRef>, queue: seq<FieldRef>,
    parents: map<FieldRef, FieldRef>, paths: map<FieldRef, seq<FieldRef>>
  ) {
    && visited <= members && start !in visited && next in visited
    && PathsKnown(g, next, visited, parents, paths)
    && (forall x :: x in queue ==> x in visited)
    && SearchedAll(g, members, visited, queue)
  }

  ghost predicate SearchedAll(g: Graph<FieldRef>, members: set<FieldRef>, visited: set<FieldRef>, queue: seq<FieldRef>) {
    forall x :: x in visited && x !in queue ==> Expanded(g, members, visited, x, {})
  }

  lemma SearchStarts(g: Graph<FieldRef>, members: set<FieldRef>, start: FieldRef, next: FieldRef)
    requires start != next && next in members
    ensures Searching(g, members, start, next, {next}, [next], map[], map[next := [next]])
  {
    assert PathBetween(g, [next], next, next);
    assert PathKnown(g, next, {next}, map[], map[next := [next]], next);
  }

  lemma FewerUnvisited(members: set<FieldRef>, before: set<FieldRef>, after: set<FieldRef>)
    requires before <= after <= members
    ensures after == before || members - after < members - before
  {
    if x :| x in after && x !in before {
      assert x in members - before && x !in members - after;
    }
  }

  // Breadth-first from `next` until a node reads `start`.
  method Search(v: Edges, start: FieldRef, next: FieldRef, members: set<FieldRef>, ghost g: Graph<FieldRef>)
      returns (found: Option<seq<FieldRef>>, ghost visited': set<FieldRef>)
    requires ReadsWithin(v, g, members) && start in members && next in members && start != next && Edge(g, start, next)
    ensures found.Some? ==> IsWitness(g, members, start, found.value)
    ensures found.None? ==> next in visited' && start !in visited' && visited' <= members
                            && forall x :: x in visited' ==> Expanded(g, members, visited', x, {})
  {
    var queue, visited, parents := [next], {next}, map[];
    ghost var paths: map<FieldRef, seq<FieldRef>> := map[next := [next]];
    SearchStarts(g, members, start, next);
    while queue != []
      invariant Searching(g, members, start, next, visited, queue, parents, paths)
      decreases members - visited, |queue|
    {
      var node, rest := queue[0], queue[1..];
      assert queue == [node] + rest;
      ghost var before := visited;
      var closed;
      closed, visited, parents, rest, paths := VisitDependencies(v, start, next, members, node, visited, parents, rest, g, paths);
      if closed {
        var path := PathTo(next, node, parents, g, visited, paths);
        ClosesWitness(g, members, start, next, visited, parents, paths, node);
        return Some([start] + path + [start]), visited;
      }
      FewerUnvisited(members, before, visited);
      queue := rest;
    }
    return None, visited;
  }

  // Visit what one node reads within the component; stop at the start node.
  method VisitDependencies(
    v: Edges, start: FieldRef, next: FieldRef, members: set<FieldRef>, node: FieldRef, visited: set<FieldRef>,
    parents: map<FieldRef, FieldRef>, queue: seq<FieldRef>, ghost g: Graph<FieldRef>, ghost paths: map<FieldRef, seq<FieldRef>>
  ) returns (
      closed: bool, visited': set<FieldRef>, parents': map<FieldRef, FieldRef>, queue': seq<FieldRef>,
      ghost paths': map<FieldRef, seq<FieldRef>>)
    requires ReadsWithin(v, g, members) && visited <= members && start !in visited && node in visited
    requires PathsKnown(g, next, visited, parents, paths)
    requires (forall x :: x in queue ==> x in visited) && AllExpanded(g, members, visited, queue, node)
    ensures visited <= visited' <= members && start !in visited'
    ensures PathsKnown(g, next, visited', parents', paths')
    ensures forall x :: x in queue' ==> x in visited'
    ensures closed ==> Edge(g, node, start)
    ensures !closed ==> (visited' == visited ==> queue' == queue) && SearchedAll(g, members, visited', queue')
  {
    closed, visited', parents', queue', paths' := false, visited, parents, queue, paths;
    var work := DependenciesWithin(v, node, members);
    while work != {}
      invariant work <= DependenciesWithin(v, node, members)
      invariant visited <= visited' <= members && start !in visited' && PathsKnown(g, next, visited', parents', paths')
      invariant forall x :: x in queue' ==> x in visited'
      invariant visited' == visited ==> queue' == queue
      invariant AllExpanded(g, members, visited', queue', node) && Expanded(g, members, visited', node, work)
    {
      var dependency := LeastCell(work);
      assert dependency in members && Edge(g, node, dependency);
      if dependency == start {
        closed := true;
        return;
      }
      if dependency !in visited' {
        VisitKeepsPaths(g, next, visited', parents', paths', node, dependency);
        visited', parents', queue' := visited' + {dependency}, parents'[dependency := node], queue' + [dependency];
        paths' := paths'[dependency := paths'[node] + [dependency]];
      }
      work := work - {dependency};
    }
    assert Expanded(g, members, visited', node, {});
  }

  // A search within a component cannot come back empty-handed.
  lemma SearchFinds(g: Graph<FieldRef>, members: set<FieldRef>, start: FieldRef, next: FieldRef, visited: set<FieldRef>)
    requires start in g && members == Class(g, start) && next in members && next in visited && visited <= members
    requires forall x :: x in visited ==> Expanded(g, members, visited, x, {})
    ensures start in visited
  {
    var kept := iset x: FieldRef | x in visited || !Reaches(g, x, start);
    forall x, d | x in kept && Edge(g, x, d) ensures d in kept {
      if Reaches(g, d, start) {
        ReachesEdge(g, x, d);
        ReachesTransitive(g, x, d, start);
        ReachesTransitive(g, start, x, d);
        ReachesSplit(g, d, start);
        assert Expanded(g, members, visited, x, {});
        assert d in members;
      }
    }
    ReachesSelf(g, start);
    ReachesStays(g, kept, next, start);
  }

  // compatibility_cycle_witness: the code's fallback is never reached, since a
  // search from the first outgoing edge finds its way back.
  method CycleWitness(v: Edges, selected: FieldRef, members: set<FieldRef>, ghost g: Graph<FieldRef>) returns (path: seq<FieldRef>)
    requires Closed(g) && selected in g && OnCycle(g, selected)
    requires members == Class(g, selected) && ReadsWithin(v, g, members)
    ensures IsWitness(g, members, selected, path)
  {
    ReachesSelf(g, selected);
    var start := selected;
    var outgoing := DependenciesWithin(v, start, members);
    CyclicReadsWithin(g, selected, v);
    var next := LeastCell(outgoing);
    if next == start {
      return [start, start];
    }
    var found, visited := Search(v, start, next, members, g);
    if found.None? {
      SearchFinds(g, members, start, next, visited);
      assert false;
    } else {
      path := found.value;
    }
  }

  lemma CyclicReadsWithin(g: Graph<FieldRef>, start: FieldRef, v: Edges)
    requires start in g && OnCycle(g, start) && Closed(g) && start in Class(g, start) && ReadsWithin(v, g, Class(g, start))
    ensures DependenciesWithin(v, start, Class(g, start)) != {}
  {
    var m :| Edge(g, start, m) && Reaches(g, m, start);
    ReachesEdge(g, start, m);
    assert m in Class(g, start);
  }

  // ---- The one error ----

  // What the error says about the root cause.
  ghost predicate Explains(g: Graph<FieldRef>, failures: FailureMap, root: FieldRef, error: CalculationError)
    requires root in failures
  {
    match failures[root]
    case TypeMismatch => error == InvalidFormula(root)
    case InvalidExpression(_) => error == InvalidFormula(root)
    case InvalidReferences(targets) =>
      && targets.Keys != {}
      && var target := LeastCell(targets.Keys);
      error == if targets[target] == Missing then MissingReference(target) else NonNumericReference(target)
    case Cycle(members) => error.CycleError? && IsWitness(g, members, root, error.path)
    case FailedDependencies(dependencies) =>
      dependencies != {} && dependencies * failures.Keys == {} && error == MissingReference(LeastCell(dependencies))
    case EmptyAggregate => error == EmptyAggregateError(root)
    case DivisionByZero => error == DivisionByZeroError(root)
    case NonFiniteResult => error == NonFiniteError(root)
    case InvalidColumn(columns) => columns.Keys != {} && error == InvalidColumnError(LeastColumn(columns.Keys))
  }

  // No failure the error is made from is empty.
  ghost predicate WellFormedFailure(v: Edges, g: Graph<FieldRef>, failures: FailureMap, root: FieldRef)
    requires root in failures
  {
    match failures[root]
    case InvalidReferences(targets) => targets.Keys != {}
    case InvalidColumn(columns) => columns.Keys != {}
    case FailedDependencies(dependencies) => dependencies != {}
    case Cycle(members) =>
      Closed(g) && root in g && OnCycle(g, root) && members == Class(g, root) && ReadsWithin(v, g, members)
    case _ => true
  }

  lemma FormedIsWellFormed(v: Edges, document: Document, failures: FailureMap, g: Graph<FieldRef>, root: FieldRef)
    requires Exact(v, document) && g == CycleGraph(document)
    requires root in failures && FailureIsFormed(document, root, failures[root])
    ensures WellFormedFailure(v, g, failures, root)
  {
    if failures[root].Cycle? {
      KnownCycle(v, document, g, root, failures[root].members);
    } else {
      FormedIsNonEmpty(document, root, failures[root]);
    }
  }

  lemma FormedIsNonEmpty(document: Document, f: FieldRef, failure: CalculationFailure)
    requires FailureIsFormed(document, f, failure)
    ensures failure.InvalidReferences? ==> failure.targets.Keys != {}
    ensures failure.InvalidColumn? ==> failure.columns.Keys != {}
    ensures failure.FailedDependencies? ==> failure.dependencies != {}
  {
  }

  lemma KnownCycle(v: Edges, document: Document, g: Graph<FieldRef>, root: FieldRef, members: set<FieldRef>)
    requires Exact(v, document) && g == CycleGraph(document)
    requires FailureIsFormed(document, root, Cycle(members))
    ensures Closed(g) && root in g && OnCycle(g, root) && members == Class(g, root) && ReadsWithin(v, g, members)
  {
    CycleGraphShape(document, g);
    MembersReadWithin(v, document, g.Keys, members);
  }

  lemma CycleGraphShape(document: Document, g: Graph<FieldRef>)
    requires g == CycleGraph(document)
    ensures Closed(g) && g.Keys == Eligible(document) <= Formulas(document)
  {
  }

  method ErrorOf(v: Edges, root: FieldRef, failures: FailureMap, ghost g: Graph<FieldRef>) returns (error: CalculationError)
    requires root in failures && NextBlamed(failures, root) == None && WellFormedFailure(v, g, failures, root)
    ensures Explains(g, failures, root, error)
  {
    match failures[root] {
      case TypeMismatch => error := InvalidFormula(root);
      case InvalidExpression(_) => error := InvalidFormula(root);
      case InvalidReferences(targets) =>
        var target := LeastCell(targets.Keys);
        error := if targets[target] == Missing then MissingReference(target) else NonNumericReference(target);
      case Cycle(members) =>
        var path := CycleWitness(v, root, members, g);
        error := CycleError(path);
      case FailedDependencies(dependencies) =>
        assert dependencies * failures.Keys == {};
        error := MissingReference(LeastCell(dependencies));
      case EmptyAggregate => error := EmptyAggregateError(root);
      case DivisionByZero => error := DivisionByZeroError(root);
      case NonFiniteResult => error := NonFiniteError(root);
      case InvalidColumn(columns) => error := InvalidColumnError(LeastColumn(columns.Keys));
    }
  }

  // Where following the first failed blame from the first failed node ends.
  ghost predicate IsRootCause(failures: FailureMap, root: FieldRef) {
    && root in failures && NextBlamed(failures, root) == None
    && exists chain :: BlamesFrom(failures, chain, root)
  }

  ghost predicate BlamesFrom(failures: FailureMap, chain: seq<FieldRef>, last: FieldRef) {
    && IsChain(failures, chain) && AllDistinct(chain)
    && failures.Keys != {} && chain[0] == LeastCell(failures.Keys) && chain[|chain| - 1] == last
  }

  // Two chains from one node agree as far as both go.
  lemma {:induction false} ChainsAgree(failures: FailureMap, a: seq<FieldRef>, b: seq<FieldRef>, i: nat)
    requires IsChain(failures, a) && IsChain(failures, b) && a[0] == b[0] && i < |a| && i < |b|
    ensures a[i] == b[i]
    decreases i
  {
    if i > 0 {
      ChainsAgree(failures, a, b, i - 1);
      assert NextBlamed(failures, a[i - 1]) == Some(a[i - 1 + 1]) && NextBlamed(failures, b[i - 1]) == Some(b[i - 1 + 1]);
    }
  }

  // A set of failures has one root cause.
  lemma RootCauseIsUnique(failures: FailureMap, a: FieldRef, b: FieldRef)
    requires IsRootCause(failures, a) && IsRootCause(failures, b)
    ensures a == b
  {
    var p :| BlamesFrom(failures, p, a);
    var q :| BlamesFrom(failures, q, b);
    EndsAgree(failures, p, q);
  }

  lemma EndsAgree(failures: FailureMap, p: seq<FieldRef>, q: seq<FieldRef>)
    requires IsChain(failures, p) && IsChain(failures, q) && p[0] == q[0]
    requires NextBlamed(failures, p[|p| - 1]) == None && NextBlamed(failures, q[|q| - 1]) == None
    ensures p[|p| - 1] == q[|q| - 1]
  {
    var shorter := if |p| <= |q| then |p| - 1 else |q| - 1;
    ChainsAgree(failures, p, q, shorter);
    OnlyTheLastStops(failures, p, shorter);
    OnlyTheLastStops(failures, q, shorter);
  }

  lemma OnlyTheLastStops(failures: FailureMap, chain: seq<FieldRef>, i: nat)
    requires IsChain(failures, chain) && i < |chain|
    ensures NextBlamed(failures, chain[i]) == None ==> i == |chain| - 1
  {
    if i < |chain| - 1 {
      assert NextBlamed(failures, chain[i]) == Some(chain[i + 1]);
    }
  }

  // Following the first failed blame from the first failed node comes back to
  // a node it passed.
  ghost predicate Repeats(failures: FailureMap) {
    exists chain :: ComesBack(failures, chain)
  }

  ghost predicate ComesBack(failures: FailureMap, chain: seq<FieldRef>) {
    && IsChain(failures, chain) && failures.Keys != {} && chain[0] == LeastCell(failures.Keys)
    && !GoesOn(failures, chain)
  }

  // A walk ends at a root cause or comes back, not both.
  lemma RootOrRepeat(failures: FailureMap, root: FieldRef)
    requires IsRootCause(failures, root)
    ensures !Repeats(failures)
  {
    var p :| BlamesFrom(failures, p, root);
    forall q ensures !ComesBack(failures, q) {
      if ComesBack(failures, q) { EndsOrReturns(failures, p, q); }
    }
  }

  lemma EndsOrReturns(failures: FailureMap, p: seq<FieldRef>, q: seq<FieldRef>)
    requires IsChain(failures, p) && AllDistinct(p) && NextBlamed(failures, p[|p| - 1]) == None
    requires IsChain(failures, q) && p[0] == q[0]
    ensures GoesOn(failures, q)
  {
    if !GoesOn(failures, q) {
      var next := NextBlamed(failures, q[|q| - 1]).value;
      if |p| <= |q| {
        ChainsAgree(failures, p, q, |p| - 1);
        OnlyTheLastStops(failures, q, |p| - 1);
        assert false;
      } else {
        ChainsAgree(failures, p, q, |q| - 1);
        assert NextBlamed(failures, p[|q| - 1]) == Some(p[|q| - 1 + 1]);
        var j :| 0 <= j < |q| && q[j] == next;
        ChainsAgree(failures, p, q, j);
        assert false;
      }
    }
  }

  // Where every formula declares what it reads, the walk never comes back.
  lemma CoherentNeverRepeats(rules: Rules, s: Snapshot)
    requires Coherent(s.document) && Solves(rules, s)
    ensures !Repeats(s.failures)
  {
    forall chain | IsChain(s.failures, chain) ensures GoesOn(s.failures, chain) {
      ChainNeverRepeats(rules, s, chain);
    }
  }

  // Follow the first failed blame from the first failed node. None stands for
  // the failed assertion that no node is visited twice.
  method RootCause(failures: FailureMap) returns (root: Option<FieldRef>)
    requires failures.Keys != {}
    ensures root.Some? ==> IsRootCause(failures, root.value)
    ensures root.None? <==> Repeats(failures)
  {
    var field := LeastCell(failures.Keys);
    var visited := {field};
    ghost var chain := [field];
    while NextBlamed(failures, field).Some?
      invariant field in failures && visited <= failures.Keys
      invariant BlamesFrom(failures, chain, field)
      invariant forall c :: c in visited <==> c in chain
      decreases failures.Keys - visited
    {
      var next := NextBlamed(failures, field).value;
      if next in visited {
        assert ComesBack(failures, chain);
        return None;
      }
      chain, visited, field := chain + [next], visited + {next}, next;
    }
    RootOrRepeat(failures, field);
    root := Some(field);
  }

  // compatibility_error: it fails its assertion exactly when the walk from
  // failure to failure comes back; otherwise it explains the root cause.
  method CompatibilityError(v: Edges, failures: FailureMap, ghost document: Document) returns (error: Option<CalculationError>)
    requires Exact(v, document) && AreFormed(document, failures) && failures.Keys != {}
    ensures error.None? <==> Repeats(failures)
    ensures error.Some? ==>
      exists root :: IsRootCause(failures, root) && Explains(CycleGraph(document), failures, root, error.value)
  {
    var root := RootCause(failures);
    if root.None? {
      return None;
    }
    FormedIsWellFormed(v, document, failures, CycleGraph(document), root.value);
    var explained := ErrorOf(v, root.value, failures, CycleGraph(document));
    error := Some(explained);
  }
}
