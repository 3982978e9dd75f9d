/**
 With columns of two schemas in one conditional, two formulas can blame each
 other although neither is on a cycle of declared dependencies: the walk from
 failure to failure comes back to where it started.
 */
module BlameLoops {
  import opened Model
  import opened Expressions
  import opened Evaluator
  import opened Locality
  import opened Graphs
  import opened DependencyGraphs
  import opened Propagation
  import opened Systems
  import opened Solutions
  import FieldOrder
  import opened Compatibility
  import opened MixedSchemas

  // The undeclared cell of the conditional refers back to the conditional.
  function Looped(): Document {
    MixedRow(Number(1), FormulaValue(Back))
  }

  function LoopStart(): Snapshot {
    Snapshot(Looped(), map[Declared := Number(1)], map[])
  }

  function MutualBlame(): FailureMap {
    map[Formula := FailedDependencies({Undeclared}), Undeclared := FailedDependencies({Formula})]
  }

  function LoopEnd(): Snapshot {
    Snapshot(Looped(), map[Declared := Number(1)], MutualBlame())
  }

  const LoopChain := [Formula, Undeclared]

  // The conditional requires no failed cell and blames one all the same.
  lemma ConditionalBlamesUndeclared(rules: Rules, s: Snapshot)
    requires s.document == Looped() && Declared in s.values && s.values[Declared] == Number(1)
    requires Declared !in s.failures && Undeclared !in s.values
    ensures FailedRequired(rules, s, Formula, Mixed) == {}
    ensures NumberOf(rules, s, Formula, Mixed) == Err(FailedDependencies({Undeclared}))
    ensures OracleOf(rules)(s, Formula) == Err(FailedDependencies({Undeclared}))
  {
    ConditionalOutcome(rules, s, Number(1), FormulaValue(Back));
    WalkOfMixedRow(rules, s, Number(1), FormulaValue(Back));
  }

  lemma ReferenceBlamesConditional(rules: Rules, s: Snapshot)
    requires s.document == Looped() && Formula in s.failures
    ensures OracleOf(rules)(s, Undeclared) == Err(FailedDependencies({Formula}))
  {
    MixedRowIsPlain(Number(1), FormulaValue(Back));
    assert FailedRequired(rules, s, Undeclared, Back) == {Formula};
  }

  lemma LoopSettles(rules: Rules, y: System, s: Snapshot)
    requires y.document == Looped() && s == LoopEnd()
    requires y.free == map[Formula := {Declared}, Undeclared := {Formula}] && y.fixed == map[Declared := Ok(Number(1))]
    ensures IsSolution(y, OracleOf(rules), s)
  {
    ConditionalBlamesUndeclared(rules, s);
    ReferenceBlamesConditional(rules, s);
  }

  lemma LoopSolves(rules: Rules)
    ensures Solves(rules, LoopEnd())
  {
    MixedRowSystem(Number(1), Back, SystemOf(Looped()));
    LoopSettles(rules, SystemOf(Looped()), LoopEnd());
    SolvesIsSolution(rules, LoopEnd());
  }

  lemma LeastOfOne(f: FieldRef)
    ensures FieldOrder.LeastCell({f}) == f
  {
  }

  lemma LoopRepeats()
    ensures IsChain(MutualBlame(), LoopChain) && !GoesOn(MutualBlame(), LoopChain) && Repeats(MutualBlame())
  {
    var failures := MutualBlame();
    assert FailedBlamed(failures, Formula) == {Undeclared} && FailedBlamed(failures, Undeclared) == {Formula};
    LeastOfOne(Formula);
    LeastOfOne(Undeclared);
    assert failures.Keys == {Formula, Undeclared} && FieldOrder.LeastCell({Formula, Undeclared}) == Formula;
    assert NextBlamed(failures, Formula) == Some(Undeclared) && NextBlamed(failures, Undeclared) == Some(Formula);
    assert ComesBack(failures, LoopChain);
  }

  // The reference waits for the conditional, so there is one order.
  lemma OneOrder(y: System, order: seq<FieldRef>)
    requires y.free == map[Formula := {Declared}, Undeclared := {Formula}]
    requires Schedules(y, {Formula, Undeclared}, order)
    ensures order == LoopChain
  {
    assert Formula in y.free[Undeclared] && order[0] == Formula;
    assert {Formula, Undeclared} - {Formula} == {Undeclared};
    var rest := order[1..];
    assert Schedules(y, {Undeclared}, rest) && rest[0] == Undeclared;
    assert {Undeclared} - {Undeclared} == {};
    assert Schedules(y, {}, rest[1..]) && rest[1..] == [];
    assert order == [order[0]] + ([rest[0]] + rest[1..]);
  }

  lemma LoopOrder(y: System, oracle: Oracle)
    requires y.document == Looped()
    requires y.free == map[Formula := {Declared}, Undeclared := {Formula}] && y.fixed == map[Declared := Ok(Number(1))]
    ensures Pass(y, oracle, LoopStart(), {Formula, Undeclared})
    ensures Schedules(y, {Formula, Undeclared}, LoopChain)
    ensures forall order :: Schedules(y, {Formula, Undeclared}, order) ==> order == LoopChain
  {
    var both := {Formula, Undeclared};
    assert LoopChain[1..] == [Undeclared] && [Undeclared][1..] == [];
    assert both - {Formula} == {Undeclared} && {Undeclared} - {Undeclared} == {};
    assert Schedules(y, {}, [Undeclared][1..]);
    assert Schedules(y, {Undeclared}, [Undeclared]);
    assert Settles(y, oracle, LoopStart(), Declared);
    forall order | Schedules(y, both, order) ensures order == LoopChain {
      OneOrder(y, order);
    }
  }

  lemma LoopRun(rules: Rules)
    ensures Run(OracleOf(rules), LoopStart(), LoopChain) == LoopEnd()
  {
    var oracle := OracleOf(rules);
    ConditionalBlamesUndeclared(rules, LoopStart());
    var failed := Snapshot(Looped(), map[Declared := Number(1)], map[Formula := FailedDependencies({Undeclared})]);
    assert WithOutcome(LoopStart(), Formula, oracle(LoopStart(), Formula)) == failed;
    ReferenceBlamesConditional(rules, failed);
    assert LoopChain[1..] == [Undeclared] && [Undeclared][1..] == [];
    assert Run(oracle, failed, [Undeclared]) == WithOutcome(failed, Undeclared, oracle(failed, Undeclared));
    assert failed.failures[Undeclared := FailedDependencies({Formula})] == MutualBlame();
    assert Run(oracle, LoopStart(), LoopChain) == Run(oracle, failed, [Undeclared]);
  }

  // Nothing fails early, nothing is on a cycle, there is one order to evaluate
  // in, and it ends in two failures that blame each other.
  lemma ChainRepeats(rules: Rules)
    ensures var y, oracle, both := SystemOf(Looped()), OracleOf(rules), {Formula, Undeclared};
      && Eligible(Looped()) == both && (forall c :: !IsCyclic(Looped(), c)) && !Coherent(Looped())
      && Pass(y, oracle, LoopStart(), both) && Schedules(y, both, LoopChain)
      && (forall order :: Schedules(y, both, order) ==> order == LoopChain)
    ensures Run(OracleOf(rules), LoopStart(), LoopChain) == LoopEnd() && Solves(rules, LoopEnd())
    ensures IsChain(LoopEnd().failures, LoopChain) && !GoesOn(LoopEnd().failures, LoopChain) && Repeats(LoopEnd().failures)
  {
    MixedRowSystem(Number(1), Back, SystemOf(Looped()));
    MixedIsUndeclared();
    MixedRowIsPlain(Number(1), FormulaValue(Back));
    LoopOrder(SystemOf(Looped()), OracleOf(rules));
    LoopRun(rules);
    LoopSolves(rules);
    LoopRepeats();
  }

  // Where that evaluation ends, the conditional requires no failed cell, yet it
  // blames a failed one, and one it does not declare.
  lemma BlameIsNotRequired(rules: Rules)
    ensures Solves(rules, LoopEnd()) && FailuresAreStored(LoopEnd())
    ensures FailedRequired(rules, LoopEnd(), Formula, Mixed) == {}
    ensures NumberOf(rules, LoopEnd(), Formula, Mixed) == Err(FailedDependencies({Undeclared}))
    ensures Undeclared in LoopEnd().failures && Undeclared !in Dependencies(Looped(), Formula, Mixed)
  {
    LoopSolves(rules);
    ConditionalBlamesUndeclared(rules, LoopEnd());
    MixedDependencies(Number(1), FormulaValue(Back));
    MixedRowIsPlain(Number(1), FormulaValue(Back));
  }

  // ---- A second solution ----

  function LoopCounted(): Snapshot {
    Snapshot(Looped(), map[Declared := Number(1), Formula := Number(1), Undeclared := Number(1)], map[])
  }

  // Where one matching row counts as one, the same document is also solved by
  // the values a person would expect, which no evaluation reaches.
  lemma TwoSolutions(rules: Rules)
    requires rules.count(1) == Finite(1)
    ensures Solves(rules, LoopEnd()) && Solves(rules, LoopCounted()) && LoopEnd() != LoopCounted()
  {
    var s, y := LoopCounted(), SystemOf(Looped());
    LoopSolves(rules);
    MixedRowSystem(Number(1), Back, y);
    CountedSettles(rules, y, s);
    SolvesIsSolution(rules, s);
  }

  lemma CountedFormula(rules: Rules, s: Snapshot)
    requires s == LoopCounted() && rules.count(1) == Finite(1)
    ensures OracleOf(rules)(s, Formula) == Ok(Number(1))
  {
    ConditionalOutcome(rules, s, Number(1), FormulaValue(Back));
    WalkOfMixedRow(rules, s, Number(1), FormulaValue(Back));
  }

  lemma CountedReference(rules: Rules, s: Snapshot)
    requires s == LoopCounted()
    ensures OracleOf(rules)(s, Undeclared) == Ok(Number(1))
  {
    MixedRowIsPlain(Number(1), FormulaValue(Back));
    NothingFailed(rules, s, Undeclared, Back);
    assert ReferenceValueOf(s, Formula) == Ok(Number(1));
  }

  lemma CountedSettles(rules: Rules, y: System, s: Snapshot)
    requires y.document == Looped() && s == LoopCounted() && rules.count(1) == Finite(1)
    requires y.free == map[Formula := {Declared}, Undeclared := {Formula}] && y.fixed == map[Declared := Ok(Number(1))]
    ensures IsSolution(y, OracleOf(rules), s)
  {
    CountedFormula(rules, s);
    CountedReference(rules, s);
  }
}
