/**
 The expanded per-cell pipeline: every column read is a set of cell edges, and
 every count, component and closure works on cells alone. The column-edge
 calculation must agree with it.
 */
module Reference {
  import opened Model
  import opened Expressions
  import opened Evaluator
  import opened Graphs
  import Components
  import opened ColumnCaches
  import opened Evaluation
  import opened Locality
  import opened Pregraph
  import opened DependencyGraphs
  import opened Systems
  import opened Solutions
  import opened Cycles
  import opened Scheduling
  import opened Calculations

  // ---- Cycles on the expanded graph ----

  predicate HoldsCycle(g: Graph<FieldRef>, members: set<FieldRef>) {
    |members| > 1 || exists f :: f in members && f in g && f in g[f]
  }

  function CyclicAmong(g: Graph<FieldRef>, components: seq<set<FieldRef>>): seq<set<FieldRef>> {
    if components == [] then []
    else
      var last := |components| - 1;
      CyclicAmong(g, components[..last]) + if HoldsCycle(g, components[last]) then [components[last]] else []
  }

  lemma CyclicClass(g: Graph<FieldRef>, f: FieldRef)
    requires f in g
    ensures HoldsCycle(g, Class(g, f)) <==> OnCycle(g, f)
  {
    var members := Class(g, f);
    ReachesSelf(g, f);
    SingletonOrLarger(members, f);
    if members != {f} {
      var m :| m in members && m != f;
      ReachesSplit(g, f, m);
      PrecedesThen(g, f, m, f);
    } else {
      if f in g[f] { assert Edge(g, f, f); }
      if OnCycle(g, f) {
        var m :| Edge(g, f, m) && Reaches(g, m, f);
        ReachesEdge(g, f, m);
        ReachesSplit(g, m, f);
        assert m in g ==> m in members;
      }
    }
  }

  lemma {:induction false} CyclicAmongAreListed(g: Graph<FieldRef>, components: seq<set<FieldRef>>)
    ensures forall c :: Components.Listed(CyclicAmong(g, components), c) <==> Components.Listed(components, c) && HoldsCycle(g, c)
  {
    if components != [] {
      var last := |components| - 1;
      var rest := components[..last];
      CyclicAmongAreListed(g, rest);
      var found := CyclicAmong(g, rest);
      forall c ensures Components.Listed(components, c) <==> Components.Listed(rest, c) || c == components[last] {
        if Components.Listed(components, c) {
          var i :| 0 <= i < |components| && components[i] == c;
          assert i < last ==> rest[i] == c;
        }
        if Components.Listed(rest, c) {
          var i :| 0 <= i < |rest| && rest[i] == c;
          assert components[i] == c;
        }
      }
      var one := if HoldsCycle(g, components[last]) then [components[last]] else [];
      ListedInConcat(found, one);
      forall c ensures Components.Listed(one, c) <==> c == components[last] && HoldsCycle(g, c) {
        if c == components[last] && HoldsCycle(g, c) { assert one[0] == c; }
      }
      assert CyclicAmong(g, components) == found + one;
    }
  }

  lemma ListedInConcat(a: seq<set<FieldRef>>, b: seq<set<FieldRef>>)
    ensures forall c :: Components.Listed(a + b, c) <==> Components.Listed(a, c) || Components.Listed(b, c)
  {
    forall c ensures Components.Listed(a + b, c) <==> Components.Listed(a, c) || Components.Listed(b, c) {
      if Components.Listed(a + b, c) {
        var i :| 0 <= i < |a + b| && (a + b)[i] == c;
        assert if i < |a| then a[i] == c else b[i - |a|] == c;
      }
      if Components.Listed(a, c) {
        var i :| 0 <= i < |a| && a[i] == c;
        assert (a + b)[i] == c;
      }
      if Components.Listed(b, c) {
        var i :| 0 <= i < |b| && b[i] == c;
        assert (a + b)[|a| + i] == c;
      }
    }
  }

  ghost predicate PairwiseDisjoint(classes: seq<set<FieldRef>>) {
    forall i, j :: 0 <= i < j < |classes| ==> classes[i] !! classes[j]
  }

  lemma {:induction false} CyclicAmongAreDisjoint(g: Graph<FieldRef>, components: seq<set<FieldRef>>)
    requires PairwiseDisjoint(components)
    ensures PairwiseDisjoint(CyclicAmong(g, components))
  {
    if components != [] {
      var last := |components| - 1;
      var rest := components[..last];
      var found := CyclicAmong(g, rest);
      CyclicAmongAreDisjoint(g, rest);
      CyclicAmongAreListed(g, rest);
      forall i | 0 <= i < |found| ensures found[i] !! components[last] {
        assert Components.Listed(found, found[i]);
        var k :| 0 <= k < last && rest[k] == found[i];
        assert components[k] !! components[last];
      }
      AppendDisjoint(found, components[last]);
    }
  }

  lemma AppendDisjoint(classes: seq<set<FieldRef>>, c: set<FieldRef>)
    requires PairwiseDisjoint(classes) && forall i :: 0 <= i < |classes| ==> classes[i] !! c
    ensures PairwiseDisjoint(classes + [c]) && PairwiseDisjoint(classes + [])
  {
  }

  lemma CyclicAmongClasses(g: Graph<FieldRef>, components: seq<set<FieldRef>>)
    requires Components.ClassesOf(g, components, g.Keys)
    ensures AreCycles(g, CyclicAmong(g, components))
  {
    var cycles := CyclicAmong(g, components);
    CyclicAmongAreListed(g, components);
    CyclicAmongAreDisjoint(g, components);
    forall i | 0 <= i < |cycles| ensures IsCycleClass(g, cycles[i]) {
      assert Components.Listed(cycles, cycles[i]);
      var k :| 0 <= k < |components| && components[k] == cycles[i];
      assert Components.IsClass(g, components[k]);
      var f :| f in components[k] && f in g && components[k] == Class(g, f);
      CyclicClass(g, f);
    }
    forall f | f in g && OnCycle(g, f) ensures InSome(cycles, f) {
      CyclicClass(g, f);
      assert Components.Listed(components, Class(g, f));
      assert Components.Listed(cycles, Class(g, f));
      ReachesSelf(g, f);
    }
  }

  // cyclic_components over cell edges only.
  method ExpandedCyclicComponents(g: Graph<FieldRef>) returns (cycles: seq<set<FieldRef>>)
    requires Closed(g)
    ensures AreCycles(g, cycles)
  {
    var components := Components.StronglyConnected(g);
    cycles := [];
    for i := 0 to |components|
      invariant cycles == CyclicAmong(g, components[..i])
    {
      assert components[..i + 1][..i] == components[..i];
      if HoldsCycle(g, components[i]) {
        cycles := cycles + [components[i]];
      }
    }
    assert components[..|components|] == components;
    CyclicAmongClasses(g, components);
  }

  // ---- Failed reads, from the full list of required reads ----

  // Every reference the selected branches read; a column contributes its first
  // failed cell.
  function RequiredReferences(rules: Rules, s: Snapshot, owner: FieldRef, e: Expression): set<FieldRef> {
    if IsCellReference(e) then {Target(owner, e)}
    else if e.If? then
      RequiredReferences(rules, s, owner, e.condition)
      + match ConditionOf(rules, s, owner, e.condition)
        case Err(_) => {}
        case Ok(holds) => RequiredReferences(rules, s, owner, if holds then e.thenValue else e.elseValue)
    else if e.IsBlank? then {}
    else
      (set k, r | k in OwnColumns(e) && r in FirstFailed(rules, s, k) :: r)
      + set c, r | c in Children(e) && r in RequiredReferences(rules, s, owner, c) :: r
  }

  lemma {:induction false} FirstFailedHasFailed(rules: Rules, s: Snapshot, cells: seq<FieldRef>, read: ColumnValues)
    requires read.firstFailed.Some? ==> read.firstFailed.value in s.failures
    ensures var last := ReadCells(rules, s, cells, read).firstFailed; last.Some? ==> last.value in s.failures
  {
    if cells != [] {
      FirstFailedHasFailed(rules, s, cells[1..], ReadCell(rules, s, cells[0], read));
    }
  }

  // Filtering the required reads by failure gives the failed required reads.
  lemma {:induction false} FailedAmongRequired(rules: Rules, s: Snapshot, owner: FieldRef, e: Expression)
    ensures FailedRequired(rules, s, owner, e) == set r | r in RequiredReferences(rules, s, owner, e) && r in s.failures
  {
    if e.If? {
      FailedAmongRequired(rules, s, owner, e.condition);
      FailedAmongRequired(rules, s, owner, e.thenValue);
      FailedAmongRequired(rules, s, owner, e.elseValue);
    } else if !IsCellReference(e) && !e.IsBlank? {
      forall k, r | k in OwnColumns(e) && r in FirstFailed(rules, s, k) ensures r in s.failures {
        FirstFailedHasFailed(rules, s, ColumnCells(s.document, k), NothingRead);
      }
      forall c | c in Children(e)
        ensures FailedRequired(rules, s, owner, c) == set r | r in RequiredReferences(rules, s, owner, c) && r in s.failures
      {
        FailedAmongRequired(rules, s, owner, c);
      }
    }
  }

  function ExpandedOutcome(rules: Rules, s: Snapshot, owner: FieldRef, e: Expression): Result<Number> {
    var failed := set r | r in RequiredReferences(rules, s, owner, e) && r in s.failures;
    if failed == {} then NumberOf(rules, s, owner, e) else Err(FailedDependencies(failed))
  }

  // first_failed_cell: looked up in the document, not in the cache.
  function FirstFailedCell(s: Snapshot, cells: seq<FieldRef>): Option<FieldRef> {
    if cells == [] then None else if cells[0] in s.failures then Some(cells[0]) else FirstFailedCell(s, cells[1..])
  }

  lemma {:induction false} FirstFailedCellIsRead(rules: Rules, s: Snapshot, cells: seq<FieldRef>, read: ColumnValues)
    ensures ReadCells(rules, s, cells, read).firstFailed
         == if read.firstFailed.Some? then read.firstFailed else FirstFailedCell(s, cells)
  {
    if cells != [] {
      FirstFailedCellIsRead(rules, s, cells[1..], ReadCell(rules, s, cells[0], read));
    }
  }

  function FirstFailedCells(s: Snapshot, columns: set<ColumnRef>): set<FieldRef> {
    set k | k in columns && FirstFailedCell(s, ColumnCells(s.document, k)).Some?
      :: FirstFailedCell(s, ColumnCells(s.document, k)).value
  }

  ghost function RequiredInAny(rules: Rules, s: Snapshot, owner: FieldRef, nodes: seq<Expression>): set<FieldRef> {
    set n, r | n in nodes && r in RequiredReferences(rules, s, owner, n) :: r
  }

  lemma RequiredInConcat(rules: Rules, s: Snapshot, owner: FieldRef, a: seq<Expression>, b: seq<Expression>)
    ensures RequiredInAny(rules, s, owner, a + b) == RequiredInAny(rules, s, owner, a) + RequiredInAny(rules, s, owner, b)
  {
  }

  lemma RequiredInOne(rules: Rules, s: Snapshot, owner: FieldRef, e: Expression)
    ensures RequiredInAny(rules, s, owner, [e]) == RequiredReferences(rules, s, owner, e)
  {
  }

  // What a node adds itself, and the nodes it leaves to visit.
  lemma RequiredHere(rules: Rules, s: Snapshot, owner: FieldRef, e: Expression)
    requires !IsCellReference(e) && !e.If? && !e.IsBlank?
    ensures RequiredReferences(rules, s, owner, e)
         == FirstFailedCells(s, OwnColumns(e)) + RequiredInAny(rules, s, owner, Children(e))
  {
    forall k | k in OwnColumns(e)
      ensures ReadColumn(rules, s, k).firstFailed == FirstFailedCell(s, ColumnCells(s.document, k))
    {
      FirstFailedCellIsRead(rules, s, ColumnCells(s.document, k), NothingRead);
    }
    var own := set k, r | k in OwnColumns(e) && r in FirstFailed(rules, s, k) :: r;
    forall r ensures r in FirstFailedCells(s, OwnColumns(e)) <==> r in own {
      if r in FirstFailedCells(s, OwnColumns(e)) {
        var k :| k in OwnColumns(e) && FirstFailedCell(s, ColumnCells(s.document, k)) == Some(r);
        assert r in FirstFailed(rules, s, k);
      }
    }
  }

  lemma RequiredContinues(
    rules: Rules, s: Snapshot, owner: FieldRef, node: Expression, rest: seq<Expression>, found: set<FieldRef>, next: seq<Expression>
  )
    requires Sizes(next) <= Sizes(Children(node))
    requires found + RequiredInAny(rules, s, owner, next) == RequiredReferences(rules, s, owner, node)
    ensures Sizes(rest + next) < Sizes(rest + [node])
    ensures found + RequiredInAny(rules, s, owner, rest + next) == RequiredInAny(rules, s, owner, rest + [node])
  {
    RequiredInConcat(rules, s, owner, rest, [node]);
    RequiredInOne(rules, s, owner, node);
    RequiredInConcat(rules, s, owner, rest, next);
    SizesOfConcat(rest, [node]);
    SizeOfNode(node);
    SizesOfConcat(rest, next);
    assert Sizes([node]) == Size(node);
  }

  // One step of the walk: the references a node reads itself and the nodes that
  // remain to be visited below it.
  method RequiredAtNode(
    rules: Rules, s: Snapshot, owner: FieldRef, cache: ColumnCache, node: Expression, ghost pending: set<FieldRef>
  ) returns (found: set<FieldRef>, next: seq<Expression>)
    requires cache.Fresh(rules, s) && cache.Settled(s.document, pending)
    requires ColumnsReady(cache.entries, s.document, node, pending)
    modifies cache`indexes, cache`conditionals
    ensures CacheGrows(cache, rules, s, pending)
    ensures found + RequiredInAny(rules, s, owner, next) == RequiredReferences(rules, s, owner, node)
    ensures forall n :: n in next ==> n in Children(node)
    ensures Sizes(next) <= Sizes(Children(node))
  {
    found, next := {}, [];
    if IsCellReference(node) {
      found := {Target(owner, node)};
    } else if node.If? {
      var condition, thenValue, elseValue := node.condition, node.thenValue, node.elseValue;
      assert Children(node) == [condition, thenValue, elseValue];
      assert Children(node)[0] == condition;
      ChildrenReady(cache.entries, s.document, node, pending);
      var holds := EvaluateCondition(rules, s, owner, cache, condition, pending);
      next := if holds.Err? then [condition] else if holds.value then [condition, thenValue] else [condition, elseValue];
      SizesOfUpToThree(condition, thenValue, elseValue);
    } else if !node.IsBlank? {
      found := FirstFailedCells(s, OwnColumns(node));
      next := Children(node);
      RequiredHere(rules, s, owner, node);
    }
  }

  ghost predicate AllReady(
    entries: map<ColumnRef, ColumnValues>, document: Document, nodes: seq<Expression>, pending: set<FieldRef>
  ) {
    forall n :: n in nodes ==> ColumnsReady(entries, document, n, pending)
  }

  lemma StillReady(
    entries: map<ColumnRef, ColumnValues>, document: Document, node: Expression, rest: seq<Expression>, next: seq<Expression>,
    pending: set<FieldRef>
  )
    requires AllReady(entries, document, rest + [node], pending) && forall n :: n in next ==> n in Children(node)
    ensures AllReady(entries, document, rest + next, pending)
  {
    assert node in rest + [node];
    ChildrenReady(entries, document, node, pending);
    forall n | n in rest + next ensures ColumnsReady(entries, document, n, pending) {
      if n in rest { assert n in rest + [node]; }
    }
  }

  // required_references, failed or not.
  method AllRequiredReferences(
    rules: Rules, s: Snapshot, owner: FieldRef, cache: ColumnCache, e: Expression, ghost pending: set<FieldRef>
  ) returns (references: set<FieldRef>)
    requires cache.Fresh(rules, s) && cache.Settled(s.document, pending)
    requires ColumnsReady(cache.entries, s.document, e, pending)
    modifies cache`indexes, cache`conditionals
    ensures CacheGrows(cache, rules, s, pending)
    ensures references == RequiredReferences(rules, s, owner, e)
  {
    references := {};
    var nodes := [e];
    RequiredInOne(rules, s, owner, e);
    while nodes != []
      invariant CacheGrows(cache, rules, s, pending)
      invariant AllReady(cache.entries, s.document, nodes, pending)
      invariant references + RequiredInAny(rules, s, owner, nodes) == RequiredReferences(rules, s, owner, e)
      decreases Sizes(nodes)
    {
      var node, rest := nodes[|nodes| - 1], nodes[..|nodes| - 1];
      assert nodes == rest + [node] && node in nodes;
      var found, next := RequiredAtNode(rules, s, owner, cache, node, pending);
      StillReady(cache.entries, s.document, node, rest, next, pending);
      RequiredContinues(rules, s, owner, node, rest, found, next);
      references := references + found;
      nodes := rest + next;
    }
  }

  // Evaluate one ready formula through the cache of the pass.
  method ExpandedReady(rules: Rules, s: Snapshot, cache: ColumnCache, f: FieldRef, e: Expression, ghost pending: set<FieldRef>)
      returns (outcome: Result<Number>)
    requires cache.Fresh(rules, s) && cache.Settled(s.document, pending) && Declares(e)
    requires forall k :: k in Columns(e) ==> Slots(s.document, k) !! pending
    modifies cache
    ensures cache.Fresh(rules, s) && cache.Settled(s.document, pending)
    ensures outcome == ExpandedOutcome(rules, s, f, e)
  {
    var work := Columns(e);
    while work != {}
      invariant work <= Columns(e)
      invariant cache.Fresh(rules, s) && cache.Settled(s.document, pending)
      invariant Columns(e) - work <= cache.entries.Keys
    {
      var column :| column in work;
      cache.Fill(rules, s, column, pending);
      work := work - {column};
    }
    var required := AllRequiredReferences(rules, s, f, cache, e, pending);
    var failed := set r | r in required && r in s.failures;
    if failed == {} {
      outcome := EvaluateNumber(rules, s, f, cache, e, pending);
    } else {
      outcome := Err(FailedDependencies(failed));
    }
  }

  // ---- The counting schedule over cell edges ----

  type Dependents = map<FieldRef, set<FieldRef>>
  type Counts = map<FieldRef, nat>

  ghost predicate Counted(g: Graph<FieldRef>, pending: set<FieldRef>, counts: Counts, ready: set<FieldRef>) {
    && counts.Keys == pending <= g.Keys
    && (forall f :: f in pending ==> counts[f] == |g[f] * pending|)
    && (forall f :: f in ready <==> f in pending && counts[f] == 0)
  }

  // Part-way through releasing the dependents of a settled formula: those
  // still in `work` count it as pending.
  ghost predicate Releasing(
    g: Graph<FieldRef>, pending: set<FieldRef>, fewer: set<FieldRef>, work: set<FieldRef>, counts: Counts, ready: set<FieldRef>
  ) {
    && counts.Keys == fewer && fewer <= g.Keys
    && (forall d {:trigger Awaits(g, pending, fewer, work, counts, d)} :: d in counts ==> Awaits(g, pending, fewer, work, counts, d))
    && (forall d :: d in ready <==> d in counts && counts[d] == 0)
  }

  ghost predicate Awaits(
    g: Graph<FieldRef>, pending: set<FieldRef>, fewer: set<FieldRef>, work: set<FieldRef>, counts: Counts, d: FieldRef
  )
    requires d in counts && d in g
  {
    counts[d] == |g[d] * (if d in work then pending else fewer)|
  }

  lemma OneFewer(s: set<FieldRef>, f: FieldRef, pending: set<FieldRef>)
    requires f in pending
    ensures f in s ==> |s * pending| == |s * (pending - {f})| + 1
    ensures f !in s ==> s * pending == s * (pending - {f})
  {
    if f in s {
      assert s * pending == s * (pending - {f}) + {f};
    } else {
      assert s * pending == s * (pending - {f});
    }
  }

  lemma ReleaseStarts(
    g: Graph<FieldRef>, pending: set<FieldRef>, f: FieldRef, work: set<FieldRef>, counts: Counts, ready: set<FieldRef>
  )
    requires Counted(g, pending, counts, ready) && f in ready
    requires forall d :: d in pending ==> (d in work <==> f in g[d])
    ensures Releasing(g, pending, pending - {f}, work, counts - {f}, ready - {f})
  {
    forall d | d in counts - {f} ensures Awaits(g, pending, pending - {f}, work, counts - {f}, d) {
      OneFewer(g[d], f, pending);
    }
  }

  lemma ReleaseOne(
    g: Graph<FieldRef>, pending: set<FieldRef>, f: FieldRef, fewer: set<FieldRef>, work: set<FieldRef>, counts: Counts,
    ready: set<FieldRef>, d: FieldRef
  )
    requires Releasing(g, pending, fewer, work, counts, ready)
    requires fewer == pending - {f} && f in pending && d in work && d in counts && f in g[d]
    ensures counts[d] > 0
    ensures Releasing(g, pending, fewer, work - {d}, counts[d := counts[d] - 1], if counts[d] == 1 then ready + {d} else ready)
  {
    assert Awaits(g, pending, fewer, work, counts, d);
    OneFewer(g[d], f, pending);
    var after := counts[d := counts[d] - 1];
    forall e | e in after ensures Awaits(g, pending, fewer, work - {d}, after, e) {
      if e != d { StillAwaits(g, pending, fewer, work, counts, after, d, e); }
    }
  }

  lemma StillAwaits(
    g: Graph<FieldRef>, pending: set<FieldRef>, fewer: set<FieldRef>, work: set<FieldRef>, counts: Counts, after: Counts,
    d: FieldRef, e: FieldRef
  )
    requires e != d && e in g && e in counts && e in after && after[e] == counts[e] && Awaits(g, pending, fewer, work, counts, e)
    ensures Awaits(g, pending, fewer, work - {d}, after, e)
  {
  }

  lemma ReleaseNone(
    g: Graph<FieldRef>, pending: set<FieldRef>, fewer: set<FieldRef>, work: set<FieldRef>, counts: Counts, ready: set<FieldRef>,
    d: FieldRef
  )
    requires Releasing(g, pending, fewer, work, counts, ready) && d !in counts
    ensures Releasing(g, pending, fewer, work - {d}, counts, ready)
  {
    forall e | e in counts ensures Awaits(g, pending, fewer, work - {d}, counts, e) {
      assert Awaits(g, pending, fewer, work, counts, e);
    }
  }

  lemma ReleaseEnds(g: Graph<FieldRef>, pending: set<FieldRef>, fewer: set<FieldRef>, counts: Counts, ready: set<FieldRef>)
    requires Releasing(g, pending, fewer, {}, counts, ready)
    ensures Counted(g, fewer, counts, ready)
  {
    forall d | d in fewer ensures counts[d] == |g[d] * fewer| {
      assert Awaits(g, pending, fewer, {}, counts, d);
    }
  }

  method ReleaseExpanded(
    g: Graph<FieldRef>, f: FieldRef, dependents: set<FieldRef>, ghost pending: set<FieldRef>, counts: Counts, ready: set<FieldRef>
  ) returns (counts': Counts, ready': set<FieldRef>)
    requires Counted(g, pending, counts, ready) && f in ready
    requires forall d :: d in pending ==> (d in dependents <==> f in g[d])
    ensures Counted(g, pending - {f}, counts', ready')
  {
    counts', ready' := counts - {f}, ready - {f};
    var work := dependents;
    ghost var fewer := pending - {f};
    ReleaseStarts(g, pending, f, work, counts, ready);
    while work != {}
      invariant forall d :: d in pending && d in work ==> f in g[d]
      invariant Releasing(g, pending, fewer, work, counts', ready')
    {
      var dependent :| dependent in work;
      if dependent !in counts' {
        ReleaseNone(g, pending, fewer, work, counts', ready', dependent);
      } else {
        ReleaseOne(g, pending, f, fewer, work, counts', ready', dependent);
        counts' := counts'[dependent := counts'[dependent] - 1];
        if counts'[dependent] == 0 {
          ready' := ready' + {dependent};
        }
      }
      work := work - {dependent};
    }
    ReleaseEnds(g, pending, fewer, counts', ready');
  }

  // Settle one ready formula, whichever is picked.
  method ExpandedNext(
    rules: Rules, s: Snapshot, g: Graph<FieldRef>, cache: ColumnCache, dependents: Dependents, counts: Counts,
    ready: set<FieldRef>, ghost pending: set<FieldRef>
  ) returns (s': Snapshot, counts': Counts, ready': set<FieldRef>, formula: FieldRef)
    requires Coherent(s.document) && g == DependencyMap(s.document) && ready != {}
    requires Pass(SystemOf(s.document), OracleOf(rules), s, pending) && Counted(g, pending, counts, ready)
    requires Inverse(g, pending, dependents)
    requires cache.Fresh(rules, s) && cache.Settled(s.document, pending)
    modifies cache
    ensures formula in pending && s'.document == s.document
    ensures Pass(SystemOf(s'.document), OracleOf(rules), s', pending - {formula})
    ensures Counted(g, pending - {formula}, counts', ready')
    ensures cache.Fresh(rules, s') && cache.Settled(s'.document, pending - {formula})
  {
    formula :| formula in ready;
    ReadyIsFree(SystemOf(s.document), OracleOf(rules), s, g, pending, counts, ready, formula);
    var outcome := ExpandedReady(rules, s, cache, formula, FormulaAt(s.document, formula), pending);
    ExpandedIsOracle(rules, s, formula);
    ExpandedStep(rules, s, g, pending, counts, ready, formula, outcome);
    OthersAgree(s, formula, outcome);
    CacheSurvives(cache, rules, s, WithOutcome(s, formula, outcome), pending, formula);
    s' := WithOutcome(s, formula, outcome);
    counts', ready' := ReleaseExpanded(g, formula, dependents[formula], pending, counts, ready);
  }

  // The pending dependents of every pending formula.
  ghost predicate Inverse(g: Graph<FieldRef>, pending: set<FieldRef>, dependents: Dependents) {
    pending <= dependents.Keys && pending <= g.Keys
    && forall f, d :: f in pending && d in pending ==> (d in dependents[f] <==> f in g[d])
  }

  // Evaluate the remaining formulas, one settled dependency at a time.
  method ExpandedEvaluate(rules: Rules, document: Document, formulas: set<FieldRef>, g: Graph<FieldRef>, values: ValueMap, failures: FailureMap)
      returns (values': ValueMap, failures': FailureMap)
    requires Coherent(document) && g == DependencyMap(document) && formulas == Formulas(document)
    requires Pass(SystemOf(document), OracleOf(rules), Snapshot(document, values, failures), set f | f in formulas && f !in failures)
    ensures Solves(rules, Snapshot(document, values', failures'))
  {
    var remaining := set f | f in formulas && f !in failures;
    var counts, dependents, ready := ExpandedCounts(g, remaining);
    var s := Snapshot(document, values, failures);
    var cache := new ColumnCache();
    ghost var pending := remaining;
    while ready != {}
      invariant fresh(cache) && cache.Fresh(rules, s) && cache.Settled(document, pending)
      invariant pending <= remaining && s.document == document
      invariant Pass(SystemOf(document), OracleOf(rules), s, pending)
      invariant Counted(g, pending, counts, ready)
      decreases pending
    {
      var formula;
      assert Inverse(g, pending, dependents);
      s, counts, ready, formula := ExpandedNext(rules, s, g, cache, dependents, counts, ready, pending);
      pending := pending - {formula};
    }
    SomePendingIsReady(rules, s, g, pending, counts, ready);
    PassDone(SystemOf(document), OracleOf(rules), s);
    SolvesIsSolution(rules, s);
    values', failures' := s.values, s.failures;
  }

  method ExpandedCounts(g: Graph<FieldRef>, remaining: set<FieldRef>)
      returns (counts: Counts, dependents: Dependents, ready: set<FieldRef>)
    requires remaining <= g.Keys
    ensures Counted(g, remaining, counts, ready) && Inverse(g, remaining, dependents)
  {
    counts := map f | f in remaining :: |g[f] * remaining|;
    dependents := map d | d in remaining :: set f | f in remaining && d in g[f];
    ready := set f | f in remaining && counts[f] == 0;
  }

  lemma ExpandedIsOracle(rules: Rules, s: Snapshot, f: FieldRef)
    requires IsFormula(s.document, f)
    ensures OracleOf(rules)(s, f) == ExpandedOutcome(rules, s, f, FormulaAt(s.document, f))
  {
    FailedAmongRequired(rules, s, f, FormulaAt(s.document, f));
  }

  lemma ReadyIsFree(
    y: System, oracle: Oracle, s: Snapshot, g: Graph<FieldRef>, pending: set<FieldRef>, counts: Counts, ready: set<FieldRef>,
    f: FieldRef
  )
    requires y == SystemOf(y.document) && g == DependencyMap(y.document) && Counted(g, pending, counts, ready) && f in ready
    requires Pass(y, oracle, s, pending)
    ensures f in pending && f in y.free && IsFormula(y.document, f) && y.free[f] !! pending
    ensures forall k :: k in Columns(FormulaAt(y.document, f)) ==> Slots(y.document, k) !! pending
  {
    assert f in pending && |g[f] * pending| == 0;
    FreeIsFormula(y.document, f);
    ReadsNoPending(g[f], pending);
    forall k, c | k in Columns(FormulaAt(y.document, f)) && c in Slots(y.document, k) ensures c !in pending {
      assert c in Dependencies(y.document, f, FormulaAt(y.document, f));
    }
  }

  lemma ReadsNoPending(cells: set<FieldRef>, pending: set<FieldRef>)
    requires |cells * pending| == 0
    ensures cells !! pending
  {
    assert forall c :: c in cells && c in pending ==> c in cells * pending;
  }

  lemma ExpandedStep(
    rules: Rules, s: Snapshot, g: Graph<FieldRef>, pending: set<FieldRef>, counts: Counts, ready: set<FieldRef>, f: FieldRef,
    outcome: Result<Number>
  )
    requires Coherent(s.document) && g == DependencyMap(s.document) && Counted(g, pending, counts, ready) && f in ready
    requires Pass(SystemOf(s.document), OracleOf(rules), s, pending) && outcome == OracleOf(rules)(s, f)
    ensures Pass(SystemOf(s.document), OracleOf(rules), WithOutcome(s, f, outcome), pending - {f})
  {
    ReadyIsFree(SystemOf(s.document), OracleOf(rules), s, g, pending, counts, ready, f);
    DocumentIsWellPosed(rules, s.document);
    RecordKeepsPass(SystemOf(s.document), OracleOf(rules), s, pending, f);
  }

  lemma SomePendingIsReady(
    rules: Rules, s: Snapshot, g: Graph<FieldRef>, pending: set<FieldRef>, counts: Counts, ready: set<FieldRef>
  )
    requires Coherent(s.document) && g == DependencyMap(s.document) && Counted(g, pending, counts, ready)
    requires Pass(SystemOf(s.document), OracleOf(rules), s, pending)
    ensures pending != {} ==> ready != {}
  {
    var y := SystemOf(s.document);
    if pending != {} {
      DocumentIsWellPosed(rules, s.document);
      SomethingIsReady(y, OracleOf(rules), pending);
      var f :| f in pending && y.free[f] !! pending;
      FreeIsFormula(s.document, f);
      assert g[f] * pending == {};
      assert f in ready;
    }
  }

  lemma FormulaGraphAmong(document: Document, dependencies: Graph<FieldRef>, eligible: set<FieldRef>, among: Graph<FieldRef>)
    requires dependencies == DependencyMap(document) && eligible <= Formulas(document)
    requires among.Keys == eligible && forall f :: f in among ==> among[f] == dependencies[f] * eligible
    ensures among == FormulaGraph(document, eligible) && Closed(among)
  {
  }

  lemma EligibleAreUnfailed(document: Document, failures: FailureMap, eligible: set<FieldRef>)
    requires failures == PregraphMap(document, Nodes(document))
    requires eligible == set f | f in Formulas(document) && f !in failures
    ensures eligible == Eligible(document)
  {
  }

  method ReferenceCalculation(rules: Rules, document: Document)
      returns (values: ValueMap, failures: FailureMap, dependencies: Graph<FieldRef>)
    requires Coherent(document)
    ensures Solves(rules, Snapshot(document, values, failures))
    ensures dependencies == DependencyMap(document)
  {
    var nodes, formulas := Nodes(document), Formulas(document);
    dependencies := map f | f in formulas :: Dependencies(document, f, FormulaAt(document, f));
    failures := PregraphFailures(document, nodes);
    var eligible := set f | f in formulas && f !in failures;
    var among := map f | f in eligible :: dependencies[f] * eligible;
    EligibleAreUnfailed(document, failures, eligible);
    FormulaGraphAmong(document, dependencies, eligible, among);
    var cycles := ExpandedCyclicComponents(among);
    failures := FailCycles(cycles, failures, among);
    values := InitialValues(document, nodes, failures);
    PhasesStartPass(OracleOf(rules), document, failures);
    values, failures := ExpandedEvaluate(rules, document, formulas, dependencies, values, failures);
  }

  function NewlyAffected(dependencies: Graph<FieldRef>, frontier: set<FieldRef>, affected: set<FieldRef>): set<FieldRef> {
    set f | f in dependencies && f !in affected && dependencies[f] * frontier != {}
  }

  ghost predicate FrontierKept(dependencies: Graph<FieldRef>, frontier: set<FieldRef>, affected: set<FieldRef>, changed: FieldRef) {
    forall f, c :: (c == changed || c in affected) && c !in frontier && Edge(dependencies, f, c) ==> f in affected
  }

  lemma FrontierIsDone(dependencies: Graph<FieldRef>, frontier: set<FieldRef>, affected: set<FieldRef>, changed: FieldRef)
    requires FrontierKept(dependencies, frontier, affected, changed)
    requires NewlyAffected(dependencies, frontier, affected) == {}
    ensures forall f :: Precedes(dependencies, f, changed) ==> f in affected
  {
    forall f, c | (c == changed || c in affected) && Edge(dependencies, f, c) ensures f in affected {
      assert f !in NewlyAffected(dependencies, frontier, affected);
      assert c in frontier ==> c in dependencies[f] * frontier;
    }
    forall f | Precedes(dependencies, f, changed) ensures f in affected {
      var m :| Edge(dependencies, f, m) && Reaches(dependencies, m, changed);
      ReachesCameFrom(dependencies, (iset c | c == changed || c in affected), m, changed);
    }
  }

  // affected_by over the expanded dependencies: grow a frontier until nothing
  // new reads it.
  method ExpandedAffectedBy(dependencies: Graph<FieldRef>, changed: FieldRef) returns (affected: set<FieldRef>)
    ensures forall f :: f in affected <==> Precedes(dependencies, f, changed)
  {
    var frontier := {changed};
    affected := {};
    while true
      invariant affected <= dependencies.Keys
      invariant forall f :: f in affected ==> Precedes(dependencies, f, changed)
      invariant forall c :: c in frontier ==> c == changed || c in affected
      invariant FrontierKept(dependencies, frontier, affected, changed)
      decreases dependencies.Keys - affected
    {
      var newly := NewlyAffected(dependencies, frontier, affected);
      if newly == {} {
        FrontierIsDone(dependencies, frontier, affected, changed);
        return;
      }
      forall f | f in newly ensures Precedes(dependencies, f, changed) {
        var c :| c in dependencies[f] * frontier;
        assert Edge(dependencies, f, c);
        ReachesSelf(dependencies, changed);
        if c != changed { PrecedesReaches(dependencies, c, changed); }
      }
      forall f, c | (c == changed || c in affected) && Edge(dependencies, f, c) ensures f in affected + newly {
        if c in frontier && f !in affected { assert c in dependencies[f] * frontier; }
      }
      ghost var before := dependencies.Keys - affected;
      frontier, affected := newly, affected + newly;
      assert dependencies.Keys - affected < before by {
        var f :| f in newly;
        assert f in before && f !in dependencies.Keys - affected;
      }
    }
  }

  // The column-edge calculation and the expanded one agree on every document:
  // values, failures, expanded dependencies and what any change affects.
  method Differential(rules: Rules, document: Document, changed: FieldRef)
      returns (values: ValueMap, failures: FailureMap, dependencies: Graph<FieldRef>, affected: set<FieldRef>,
               values': ValueMap, failures': FailureMap, dependencies': Graph<FieldRef>, affected': set<FieldRef>)
    requires Coherent(document)
    ensures values == values' && failures == failures' && dependencies == dependencies' && affected == affected'
    ensures Solves(rules, Snapshot(document, values, failures)) && dependencies == DependencyMap(document)
    ensures forall f :: f in affected <==> Precedes(DependencyMap(document), f, changed)
  {
    var nodes, graph;
    nodes, values, failures, graph := FullCalculation(rules, document);
    dependencies := ExpandedDependencies(graph.View());
    ExpansionIsExact(graph.View(), document);
    affected := graph.ReverseClosure({changed}, true, document);
    values', failures', dependencies' := ReferenceCalculation(rules, document);
    affected' := ExpandedAffectedBy(dependencies', changed);
    OneSolution(rules, Snapshot(document, values, failures), Snapshot(document, values', failures'));
  }
}
