/**
 Acyclic systems of equations over calculation nodes: some outcomes are fixed,
 the others follow from the outcomes of the nodes they depend on.
 */
module Systems {
  import opened Model
  import opened Evaluator
  import opened Graphs

  // How a free node's outcome follows from a snapshot of the others.
  type Oracle = (Snapshot, FieldRef) -> Result<Number>

  // The nodes with a fixed outcome, and the free ones with what each reads.
  datatype System = System(document: Document, fixed: map<FieldRef, Result<Number>>, free: map<FieldRef, set<FieldRef>>)

  ghost predicate AgreesAt(s: Snapshot, t: Snapshot, c: FieldRef) {
    && (c in s.values <==> c in t.values) && (c in s.values ==> s.values[c] == t.values[c])
    && (c in s.failures <==> c in t.failures) && (c in s.failures ==> s.failures[c] == t.failures[c])
  }

  ghost predicate AgreeOn(s: Snapshot, t: Snapshot, cells: set<FieldRef>) {
    forall c :: c in cells ==> AgreesAt(s, t, c)
  }

  // A free outcome depends on nothing but the node's declared reads.
  ghost predicate Local(y: System, oracle: Oracle) {
    forall s: Snapshot, t: Snapshot, c ::
      c in y.free && s.document == y.document && t.document == y.document && AgreeOn(s, t, y.free[c]) ==>
      oracle(s, c) == oracle(t, c)
  }

  ghost function FreeGraph(y: System): Graph<FieldRef> {
    map c | c in y.free :: y.free[c] * y.free.Keys
  }

  ghost predicate WellPosed(y: System, oracle: Oracle) {
    && y.fixed.Keys !! y.free.Keys
    && Local(y, oracle)
    && forall c :: c in y.free ==> !OnCycle(FreeGraph(y), c)
  }

  ghost predicate Records(s: Snapshot, c: FieldRef, outcome: Result<Number>) {
    match outcome
    case Ok(number) => c in s.values && s.values[c] == number && c !in s.failures
    case Err(failure) => c in s.failures && s.failures[c] == failure && c !in s.values
  }

  ghost predicate Settles(y: System, oracle: Oracle, s: Snapshot, c: FieldRef) {
    && (c in y.fixed ==> Records(s, c, y.fixed[c]))
    && (c in y.free ==> Records(s, c, oracle(s, c)))
  }

  // Nothing is recorded off the nodes.
  ghost predicate OnlyNodes(y: System, s: Snapshot) {
    s.document == y.document && s.values.Keys + s.failures.Keys <= y.fixed.Keys + y.free.Keys
  }

  ghost predicate IsSolution(y: System, oracle: Oracle, s: Snapshot) {
    OnlyNodes(y, s) && forall c :: c in y.fixed || c in y.free ==> Settles(y, oracle, s, c)
  }

  // Everything but the pending nodes is settled, and no settled node reads a
  // pending one.
  ghost predicate Pass(y: System, oracle: Oracle, s: Snapshot, pending: set<FieldRef>) {
    && pending <= y.free.Keys && OnlyNodes(y, s)
    && pending !! s.values.Keys && pending !! s.failures.Keys
    && (forall c :: (c in y.fixed || c in y.free) && c !in pending ==> Settles(y, oracle, s, c))
    && (forall c :: c in y.free && c !in pending ==> y.free[c] !! pending)
  }

  function WithOutcome(s: Snapshot, f: FieldRef, outcome: Result<Number>): Snapshot {
    match outcome
    case Ok(number) => s.(values := s.values[f := number])
    case Err(failure) => s.(failures := s.failures[f := failure])
  }

  // Recording the outcome of a node that reads no pending one moves the pass on
  // by one.
  lemma RecordKeepsPass(y: System, oracle: Oracle, s: Snapshot, pending: set<FieldRef>, f: FieldRef)
    requires WellPosed(y, oracle) && Pass(y, oracle, s, pending) && f in pending && y.free[f] !! pending
    ensures Pass(y, oracle, WithOutcome(s, f, oracle(s, f)), pending - {f})
  {
    var t := WithOutcome(s, f, oracle(s, f));
    forall c | (c in y.fixed || c in y.free) && c !in pending - {f} ensures Settles(y, oracle, t, c) {
      if c in y.free {
        assert AgreeOn(s, t, y.free[c]);
        assert oracle(s, c) == oracle(t, c);
      }
      if c != f {
        assert Settles(y, oracle, s, c);
      }
    }
  }

  lemma PassDone(y: System, oracle: Oracle, s: Snapshot)
    requires Pass(y, oracle, s, {})
    ensures IsSolution(y, oracle, s)
  {
  }

  // Free nodes cannot all wait for each other.
  lemma SomethingIsReady(y: System, oracle: Oracle, pending: set<FieldRef>)
    requires WellPosed(y, oracle) && pending <= y.free.Keys && pending != {}
    ensures exists f :: f in pending && y.free[f] !! pending
  {
    if forall f :: f in pending ==> !(y.free[f] !! pending) {
      forall f | f in pending ensures StepsWithin(FreeGraph(y), pending, f) {
        var d :| d in y.free[f] && d in pending;
        assert Edge(FreeGraph(y), f, d);
      }
      var a := EveryStepStaysMakesCycle(FreeGraph(y), pending);
    }
  }

  ghost function Differing(y: System, s: Snapshot, t: Snapshot): set<FieldRef> {
    set c | c in y.fixed.Keys + y.free.Keys && !AgreesAt(s, t, c)
  }

  // A well-posed system has one solution.
  lemma SolutionIsUnique(y: System, oracle: Oracle, s: Snapshot, t: Snapshot)
    requires WellPosed(y, oracle) && IsSolution(y, oracle, s) && IsSolution(y, oracle, t)
    ensures s == t
  {
    var differing := Differing(y, s, t);
    forall c | c in differing ensures c in y.free {
      assert Settles(y, oracle, s, c) && Settles(y, oracle, t, c);
    }
    if differing != {} {
      SomethingIsReady(y, oracle, differing);
      var f :| f in differing && y.free[f] !! differing;
      SameOutcomeAt(y, oracle, s, t, f);
      assert false;
    }
    AgreementIsEquality(y, s, t);
  }

  lemma SameOutcomeAt(y: System, oracle: Oracle, s: Snapshot, t: Snapshot, f: FieldRef)
    requires WellPosed(y, oracle) && IsSolution(y, oracle, s) && IsSolution(y, oracle, t)
    requires f in y.free && y.free[f] !! Differing(y, s, t)
    ensures f !in Differing(y, s, t)
  {
    forall d | d in y.free[f] ensures AgreesAt(s, t, d) {
      assert d !in Differing(y, s, t);
    }
    assert AgreeOn(s, t, y.free[f]);
    assert Settles(y, oracle, s, f) && Settles(y, oracle, t, f);
  }

  lemma AgreementIsEquality(y: System, s: Snapshot, t: Snapshot)
    requires OnlyNodes(y, s) && OnlyNodes(y, t) && Differing(y, s, t) == {}
    ensures s == t
  {
    forall c ensures AgreesAt(s, t, c) {
      if c in y.fixed.Keys + y.free.Keys { assert c !in Differing(y, s, t); }
    }
    assert s.values == t.values by {
      forall c ensures c in s.values <==> c in t.values { assert AgreesAt(s, t, c); }
      forall c | c in s.values ensures s.values[c] == t.values[c] { assert AgreesAt(s, t, c); }
    }
    assert s.failures == t.failures by {
      forall c ensures c in s.failures <==> c in t.failures { assert AgreesAt(s, t, c); }
      forall c | c in s.failures ensures s.failures[c] == t.failures[c] { assert AgreesAt(s, t, c); }
    }
  }

  // ---- Runs: settling the pending nodes one at a time ----

  // Each pending node is taken once, when nothing it declares is pending.
  ghost predicate Schedules(y: System, pending: set<FieldRef>, order: seq<FieldRef>)
    decreases |order|
  {
    if order == [] then pending == {}
    else
      && order[0] in pending && order[0] in y.free && y.free[order[0]] !! pending
      && Schedules(y, pending - {order[0]}, order[1..])
  }

  ghost function Run(oracle: Oracle, s: Snapshot, order: seq<FieldRef>): Snapshot
    decreases |order|
  {
    if order == [] then s else Run(oracle, WithOutcome(s, order[0], oracle(s, order[0])), order[1..])
  }

  lemma {:induction false} RunSolves(y: System, oracle: Oracle, s: Snapshot, pending: set<FieldRef>, order: seq<FieldRef>)
    requires WellPosed(y, oracle) && Pass(y, oracle, s, pending) && Schedules(y, pending, order)
    ensures IsSolution(y, oracle, Run(oracle, s, order))
    decreases |order|
  {
    if order == [] {
      PassDone(y, oracle, s);
    } else {
      RecordKeepsPass(y, oracle, s, pending, order[0]);
      RunSolves(y, oracle, WithOutcome(s, order[0], oracle(s, order[0])), pending - {order[0]}, order[1..]);
    }
  }

  // In a well-posed system the order of a schedule makes no difference.
  lemma OrderDoesNotMatter(
    y: System, oracle: Oracle, s: Snapshot, pending: set<FieldRef>, one: seq<FieldRef>, other: seq<FieldRef>
  )
    requires WellPosed(y, oracle) && Pass(y, oracle, s, pending)
    requires Schedules(y, pending, one) && Schedules(y, pending, other)
    ensures Run(oracle, s, one) == Run(oracle, s, other)
  {
    RunSolves(y, oracle, s, pending, one);
    RunSolves(y, oracle, s, pending, other);
    SolutionIsUnique(y, oracle, Run(oracle, s, one), Run(oracle, s, other));
  }
}
