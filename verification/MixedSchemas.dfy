/**
 A conditional aggregate whose criteria name two schemas reads cells it does not
 declare, so its outcome depends on the order formulas are evaluated in.
 Validation and binding refuse such formulas; the calculation does not.
 */
module MixedSchemas {
  import opened Model
  import opened Expressions
  import opened Criteria
  import opened Ordered
  import opened Evaluator
  import opened Locality
  import opened Pregraph
  import opened Graphs
  import opened DependencyGraphs
  import opened Propagation
  import opened Systems
  import opened Solutions

  const Formula := FieldRef(0, 0)
  const Declared := FieldRef(0, 1)
  const Undeclared := FieldRef(0, 2)

  const One := Literal(Number(1))

  // A reference back to the conditional.
  const Back := Reference(Formula)

  // COUNTIFS over a column of schema 0 and a column of schema 1.
  const Mixed := ColumnConditional(CountRows, [
    ColumnCriterion(ColumnRef(0, 1), Equal, Some(One)),
    ColumnCriterion(ColumnRef(1, 2), Equal, Some(One))])

  const NumberField := FieldDefinition("", NumberType, false)
  const Schemas := map[
    0 := Schema("", map[0 := NumberField, 1 := NumberField, 2 := NumberField]),
    1 := Schema("", map[2 := NumberField])]

  // One row of schema 0 that also has a cell in the field of the second column.
  function MixedRow(declared: Number, undeclared: Value): Document {
    Document(Schemas, map[0 := Entity("", 0, map[
      0 := FormulaValue(Mixed), 1 := NumberValue(declared), 2 := undeclared])])
  }

  const OneRow := MixedRow(Number(1), FormulaValue(One))

  // ---- Both formulas are calculated, and neither is on a cycle ----

  lemma MixedReads()
    ensures Children(Mixed) == [One, One]
    ensures DirectReferences(Formula, Mixed) == {} && ReferenceUses(Formula, Mixed, true) == {}
    ensures Columns(Mixed) == {ColumnRef(0, 1), ColumnRef(1, 2)}
    ensures NumericColumns(Mixed) == {} && TotalColumns(Mixed) == {}
  {
    var criteria := Mixed.criteria;
    assert criteria[1..][0] == criteria[1] && criteria[1..][1..] == [];
    assert Operands(criteria[1..]) == [One];
    assert Operands(criteria) == [One, One];
    assert OwnColumns(Mixed) == {criteria[0].column, criteria[1].column};
  }

  // What the second formula of a row may be.
  predicate IsSecond(e: Expression) {
    e == One || e == Back
  }

  function SecondReads(e: Expression): set<FieldRef> {
    if e == Back then {Formula} else {}
  }

  lemma SecondIsSmall(owner: FieldRef, e: Expression)
    requires IsSecond(e)
    ensures DirectReferences(owner, e) == SecondReads(e) && Columns(e) == {} && TotalColumns(e) == {}
    ensures forall u :: u in ReferenceUses(owner, e, true) ==> u.0 == Formula
    ensures StructureError(e) == None && TypeOf(e) == Some(NumberResult)
  {
    assert Depths(e, 1) == [1];
    WithinLimits([1], 0);
  }

  lemma MixedStructure()
    ensures StructureError(Mixed) == None
  {
    assert Depths(One, 2) == [2];
    MixedReads();
    var children := Children(Mixed);
    assert children[1..] == [One] && children[1..][1..] == [];
    assert ChildDepths(children[1..][1..], 2, Mixed) == [];
    assert ChildDepths(children[1..], 2, Mixed) == [2];
    assert ChildDepths(children, 2, Mixed) == [2, 2];
    assert Depths(Mixed, 1) == [1, 2, 2];
    WithinLimits([1, 2, 2], 0);
  }

  lemma MixedIsTyped()
    ensures TypeOf(Mixed) == Some(NumberResult)
  {
    MixedReads();
    assert TypeOf(One) == Some(NumberResult);
    assert forall c :: c in Operands(Mixed.criteria) ==> c == One;
  }

  lemma ColumnsExist(document: Document)
    requires document.schemas == Schemas
    ensures ColumnFailureOf(document, ColumnRef(0, 1), false) == None && ColumnFailureOf(document, ColumnRef(1, 2), false) == None
  {
  }

  lemma MixedShape(document: Document)
    requires document.schemas == Schemas
    ensures FormulaShapeFailure(document, Mixed) == None
  {
    MixedStructure();
    MixedIsTyped();
    MixedReads();
    ColumnsExist(document);
    TwoColumnsExist(document, Mixed, ColumnRef(0, 1), ColumnRef(1, 2));
    ShapeIsRight(document, Mixed);
  }

  lemma SecondShape(document: Document, e: Expression)
    requires IsSecond(e)
    ensures FormulaShapeFailure(document, e) == None
  {
    SecondIsSmall(Undeclared, e);
    NoColumns(document, e);
    ShapeIsRight(document, e);
  }

  // A calculated value: a number, or one of the second formulas.
  predicate IsCalculated(v: Value) {
    v.NumberValue? || (v.FormulaValue? && IsSecond(v.expression))
  }

  lemma MixedRowIsPlain(declared: Number, undeclared: Value)
    requires IsCalculated(undeclared)
    ensures var document := MixedRow(declared, undeclared);
      && Nodes(document) == {Formula, Declared, Undeclared}
      && Formulas(document) == (if undeclared.FormulaValue? then {Formula, Undeclared} else {Formula})
      && FormulaAt(document, Formula) == Mixed && Stored(document, Declared) == Some(NumberValue(declared))
      && Stored(document, Undeclared) == Some(undeclared)
  {
    var document := MixedRow(declared, undeclared);
    assert Cells(document) == {Formula, Declared, Undeclared};
  }

  lemma CellsAreRight(declared: Number, undeclared: Value, c: FieldRef)
    requires IsCalculated(undeclared) && c in {Formula, Declared, Undeclared}
    ensures ReferenceFailureOf(MixedRow(declared, undeclared), c, true) == None
    ensures ReferenceFailureOf(MixedRow(declared, undeclared), c, false) == None
  {
  }

  lemma NothingFailsEarly(declared: Number, undeclared: Value, c: FieldRef)
    requires IsCalculated(undeclared) && c in {Formula, Declared, Undeclared}
    ensures PregraphFailure(MixedRow(declared, undeclared), c) == None
  {
    var document := MixedRow(declared, undeclared);
    CellsAreRight(declared, undeclared, c);
    CellsAreRight(declared, undeclared, Formula);
    MixedRowIsPlain(declared, undeclared);
    MixedShape(document);
    MixedReads();
    if undeclared.FormulaValue? {
      SecondShape(document, undeclared.expression);
      SecondIsSmall(c, undeclared.expression);
    }
    NoTargetsNoFailure(document, c);
  }

  lemma ReadsOfTwoColumns(document: Document, owner: FieldRef, e: Expression, k: ColumnRef, l: ColumnRef)
    requires DirectReferences(owner, e) == {} && Columns(e) == {k, l}
    ensures Dependencies(document, owner, e) == Slots(document, k) + Slots(document, l)
  {
  }

  lemma MixedRowSlots(declared: Number, undeclared: Value)
    ensures var document := MixedRow(declared, undeclared);
      Slots(document, ColumnRef(0, 1)) == {Declared} && Slots(document, ColumnRef(1, 2)) == {}
  {
    var document := MixedRow(declared, undeclared);
    assert Rows(document, 0) == {0} && Rows(document, 1) == {};
  }

  lemma MixedDependencies(declared: Number, undeclared: Value)
    ensures Dependencies(MixedRow(declared, undeclared), Formula, Mixed) == {Declared}
  {
    MixedReads();
    ReadsOfTwoColumns(MixedRow(declared, undeclared), Formula, Mixed, ColumnRef(0, 1), ColumnRef(1, 2));
    MixedRowSlots(declared, undeclared);
  }

  lemma SecondDependencies(document: Document, e: Expression)
    requires IsSecond(e)
    ensures Dependencies(document, Undeclared, e) == SecondReads(e)
  {
    SecondIsSmall(Undeclared, e);
  }

  ghost predicate TwoReads(document: Document, f: FieldRef, g: FieldRef, n: FieldRef, second: set<FieldRef>) {
    && Formulas(document) == {f, g} && second <= {f}
    && Dependencies(document, f, FormulaAt(document, f)) == {n} && Dependencies(document, g, FormulaAt(document, g)) == second
  }

  // Two formulas, of which the second may read the first, and one number.
  ghost predicate TwoFormulas(
    document: Document, f: FieldRef, g: FieldRef, n: FieldRef, number: Number, second: set<FieldRef>
  ) {
    && f != g && f != n && g != n && TwoReads(document, f, g, n, second)
    && Nodes(document) == {f, g, n} && Stored(document, n) == Some(NumberValue(number))
    && (forall c :: c in {f, g, n} ==> PregraphFailure(document, c) == None)
  }

  lemma MixedRowIsTwoFormulas(declared: Number, e: Expression)
    requires IsSecond(e)
    ensures TwoFormulas(MixedRow(declared, FormulaValue(e)), Formula, Undeclared, Declared, declared, SecondReads(e))
  {
    MixedRowIsPlain(declared, FormulaValue(e));
    MixedDependencies(declared, FormulaValue(e));
    SecondDependencies(MixedRow(declared, FormulaValue(e)), e);
    NothingFailsEarly(declared, FormulaValue(e), Formula);
    NothingFailsEarly(declared, FormulaValue(e), Undeclared);
    NothingFailsEarly(declared, FormulaValue(e), Declared);
  }

  lemma AllEligible(document: Document, formulas: set<FieldRef>)
    requires Formulas(document) == formulas && forall c :: c in formulas ==> PregraphFailure(document, c) == None
    ensures Eligible(document) == formulas
  {
  }

  lemma CycleEdge(document: Document, x: FieldRef, y: FieldRef)
    requires Edge(CycleGraph(document), x, y)
    ensures x in Formulas(document) && y in Formulas(document) && y in Dependencies(document, x, FormulaAt(document, x))
  {
  }

  lemma EdgesOfTwo(document: Document, f: FieldRef, g: FieldRef, n: FieldRef, second: set<FieldRef>, x: FieldRef, y: FieldRef)
    requires TwoReads(document, f, g, n, second) && f != g && f != n && g != n
    requires x in Formulas(document) && y in Formulas(document) && y in Dependencies(document, x, FormulaAt(document, x))
    ensures x != f && y == f
  {
    MembersOfTwo(f, g, n, second, x, y, Dependencies(document, x, FormulaAt(document, x)));
  }

  lemma MembersOfTwo(f: FieldRef, g: FieldRef, n: FieldRef, second: set<FieldRef>, x: FieldRef, y: FieldRef, ofX: set<FieldRef>)
    requires f != g && f != n && g != n && second <= {f}
    requires x in {f, g} && y in {f, g} && y in ofX && (x == f ==> ofX == {n}) && (x == g ==> ofX == second)
    ensures x != f && y == f
  {
  }

  lemma NoCycles(document: Document, f: FieldRef, g: FieldRef, n: FieldRef, number: Number, second: set<FieldRef>)
    requires TwoFormulas(document, f, g, n, number, second)
    ensures Eligible(document) == {f, g} && forall c :: !IsCyclic(document, c)
  {
    AllEligible(document, {f, g});
    forall x, y | Edge(CycleGraph(document), x, y) ensures x != f && y == f {
      CycleEdge(document, x, y);
      EdgesOfTwo(document, f, g, n, second, x, y);
    }
    forall c ensures !IsCyclic(document, c) {
      OneSinkNoCycles(CycleGraph(document), f, c);
    }
  }

  lemma OnThreeNodes(y: System, f: FieldRef, g: FieldRef, n: FieldRef, number: Number, second: set<FieldRef>)
    requires y.free.Keys <= {f, g, n} && y.fixed.Keys <= {f, g, n}
    requires f in y.free && y.free[f] == {n} && g in y.free && y.free[g] == second && n !in y.free
    requires n in y.fixed && y.fixed[n] == Ok(number) && f !in y.fixed && g !in y.fixed
    ensures y.free == map[f := {n}, g := second] && y.fixed == map[n := Ok(number)]
  {
  }

  lemma KindsOfTwo(document: Document, f: FieldRef, g: FieldRef, n: FieldRef, number: Number, second: set<FieldRef>)
    requires TwoFormulas(document, f, g, n, number, second)
    ensures IsFormula(document, f) && IsFormula(document, g) && !IsFormula(document, n)
  {
  }

  // Both formulas wait for an evaluation; the number is there from the start.
  lemma SystemOfTwo(document: Document, y: System, f: FieldRef, g: FieldRef, n: FieldRef, number: Number, second: set<FieldRef>)
    requires TwoFormulas(document, f, g, n, number, second) && y == SystemOf(document)
    ensures y.free == map[f := {n}, g := second] && y.fixed == map[n := Ok(number)]
  {
    NoCycles(document, f, g, n, number, second);
    KindsOfTwo(document, f, g, n, number, second);
    NodeOfSystem(document, y, f);
    NodeOfSystem(document, y, g);
    NodeOfSystem(document, y, n);
    OnlyNodesInSystem(document, y);
    OnThreeNodes(y, f, g, n, number, second);
  }

  // The system of a row with a second formula.
  lemma MixedRowSystem(declared: Number, e: Expression, y: System)
    requires IsSecond(e) && y == SystemOf(MixedRow(declared, FormulaValue(e)))
    ensures y.free == map[Formula := {Declared}, Undeclared := SecondReads(e)] && y.fixed == map[Declared := Ok(declared)]
    ensures Eligible(y.document) == {Formula, Undeclared} && forall c :: !IsCyclic(y.document, c)
  {
    MixedRowIsTwoFormulas(declared, e);
    NoCycles(y.document, Formula, Undeclared, Declared, declared, SecondReads(e));
    SystemOfTwo(y.document, y, Formula, Undeclared, Declared, declared, SecondReads(e));
  }

  const Start := Snapshot(OneRow, map[Declared := Number(1)], map[])

  const FormulaFirst := [Formula, Undeclared]
  const FormulaLast := [Undeclared, Formula]

  // The pass may take the two formulas in either order.
  lemma BothOrders(y: System, oracle: Oracle)
    requires y.document == OneRow
    requires y.free == map[Formula := {Declared}, Undeclared := {}] && y.fixed == map[Declared := Ok(Number(1))]
    ensures Pass(y, oracle, Start, {Formula, Undeclared})
    ensures Schedules(y, {Formula, Undeclared}, FormulaFirst)
    ensures Schedules(y, {Formula, Undeclared}, FormulaLast)
  {
    var both := {Formula, Undeclared};
    assert FormulaFirst[1..] == [Undeclared] && FormulaLast[1..] == [Formula];
    assert both - {Formula} == {Undeclared} && both - {Undeclared} == {Formula};
    assert Schedules(y, {}, [Undeclared][1..]) && Schedules(y, {}, [Formula][1..]);
    assert Schedules(y, {Undeclared}, [Undeclared]) && Schedules(y, {Formula}, [Formula]);
    assert Settles(y, oracle, Start, Declared);
  }

  // ---- The walk reads the undeclared cell ----

  function OneTest(rules: Rules): CriterionTest {
    NumberTest(rules, Equal, Finite(1))
  }

  lemma BothTests(rules: Rules, s: Snapshot)
    ensures TestsOf(rules, s, Formula, Mixed.criteria, Mixed) == Ok([OneTest(rules), OneTest(rules)])
  {
    var criteria := Mixed.criteria;
    assert TestOf(rules, s, Formula, criteria[0], Mixed) == Ok(OneTest(rules));
    assert TestOf(rules, s, Formula, criteria[1], Mixed) == Ok(OneTest(rules));
    assert criteria[1..][0] == criteria[1] && criteria[1..][1..] == [];
    assert TestsOf(rules, s, Formula, criteria[1..][1..], Mixed) == Ok([]);
    assert [OneTest(rules)] + [] == [OneTest(rules)];
    assert TestsOf(rules, s, Formula, criteria[1..], Mixed) == Ok([OneTest(rules)]);
    assert [OneTest(rules)] + [OneTest(rules)] == [OneTest(rules), OneTest(rules)];
  }

  function Hits(n: Number): nat {
    if n == Number(1) then 1 else 0
  }

  lemma MatchesOne(rules: Rules, n: Number)
    ensures Matches(rules, OneTest(rules), Some(NumberCell(n.Get()))) <==> n == Number(1)
  {
  }

  lemma RowOfMixed(rules: Rules, s: Snapshot, declared: Number, undeclared: Value)
    requires IsCalculated(undeclared) && s.document == MixedRow(declared, undeclared) && Declared in s.values
    ensures var columns, tests := CriterionColumns(Mixed.criteria), [OneTest(rules), OneTest(rules)];
      RowMatches(rules, s, columns, tests, 0, 0) ==
        if s.values[Declared] != Number(1) then Ok(false)
        else if Undeclared in s.values then Ok(s.values[Undeclared] == Number(1))
        else Err(FailedDependencies({Undeclared}))
  {
    var columns, tests := CriterionColumns(Mixed.criteria), [OneTest(rules), OneTest(rules)];
    MixedRowIsPlain(declared, undeclared);
    MatchesOne(rules, s.values[Declared]);
    assert CriterionCellOf(s, Declared) == Ok(Some(NumberCell(s.values[Declared].Get())));
    if Undeclared in s.values {
      MatchesOne(rules, s.values[Undeclared]);
      assert CriterionCellOf(s, Undeclared) == Ok(Some(NumberCell(s.values[Undeclared].Get())));
    } else {
      assert CriterionCellOf(s, Undeclared) == Err(FailedDependencies({Undeclared}));
    }
    assert RowMatches(rules, s, columns, tests, 0, 2) == Ok(true);
    assert columns[0].field == 1 && columns[1].field == 2;
  }

  // The walk stops at the undeclared cell until that cell has a value.
  lemma WalkOfMixedRow(rules: Rules, s: Snapshot, declared: Number, undeclared: Value)
    requires IsCalculated(undeclared) && s.document == MixedRow(declared, undeclared) && Declared in s.values
    ensures NumberOf(rules, s, Formula, Mixed) ==
      if s.values[Declared] != Number(1) then Finish(rules.count(0))
      else if Undeclared in s.values then Finish(rules.count(Hits(s.values[Undeclared])))
      else Err(FailedDependencies({Undeclared}))
  {
    assert Rows(s.document, 0) == {0};
    IncreasingIsUnique(Ascending({0}), [0]);
    BothTests(rules, s);
    RowOfMixed(rules, s, declared, undeclared);
    assert [0][1..] == [];
  }

  lemma NothingFailed(rules: Rules, s: Snapshot, c: FieldRef, e: Expression)
    requires s.failures == map[]
    ensures FormulaOutcome(rules, s, c, e) == NumberOf(rules, s, c, e)
  {
    FailedRequiredAreReads(rules, s, c, e);
  }

  // The conditional's outcome, as long as its declared cell has not failed.
  lemma ConditionalOutcome(rules: Rules, s: Snapshot, declared: Number, undeclared: Value)
    requires IsCalculated(undeclared) && s.document == MixedRow(declared, undeclared)
    requires Declared in s.values && Declared !in s.failures
    ensures FailedRequired(rules, s, Formula, Mixed) == {}
    ensures FormulaOutcome(rules, s, Formula, Mixed) == NumberOf(rules, s, Formula, Mixed)
    ensures OracleOf(rules)(s, Formula) == NumberOf(rules, s, Formula, Mixed)
  {
    FailedRequiredAreReads(rules, s, Formula, Mixed);
    MixedDependencies(declared, undeclared);
    MixedRowIsPlain(declared, undeclared);
  }

  lemma OneOutcome(rules: Rules, s: Snapshot, declared: Number)
    requires s.document == MixedRow(declared, FormulaValue(One))
    ensures OracleOf(rules)(s, Undeclared) == Ok(Number(1))
  {
    FailedRequiredAreReads(rules, s, Undeclared, One);
    SecondDependencies(s.document, One);
    MixedRowIsPlain(declared, FormulaValue(One));
  }

  // What each formula comes to before anything failed.
  lemma Outcomes(rules: Rules, s: Snapshot)
    requires s.document == OneRow && s.failures == map[]
    requires Declared in s.values && s.values[Declared] == Number(1)
    requires Undeclared in s.values ==> s.values[Undeclared] == Number(1)
    ensures OracleOf(rules)(s, Undeclared) == Ok(Number(1))
    ensures OracleOf(rules)(s, Formula) ==
      if Undeclared in s.values then Finish(rules.count(1)) else Err(FailedDependencies({Undeclared}))
  {
    ConditionalOutcome(rules, s, Number(1), FormulaValue(One));
    OneOutcome(rules, s, Number(1));
    WalkOfMixedRow(rules, s, Number(1), FormulaValue(One));
  }

  // The formula fails when it is taken first and counts its row when it is
  // taken last.
  lemma BothRuns(rules: Rules)
    ensures Records(Run(OracleOf(rules), Start, FormulaFirst), Formula, Err(FailedDependencies({Undeclared})))
    ensures Records(Run(OracleOf(rules), Start, FormulaLast), Formula, Finish(rules.count(1)))
  {
    var oracle := OracleOf(rules);
    Outcomes(rules, Start);
    var failed := Start.(failures := map[Formula := FailedDependencies({Undeclared})]);
    assert FormulaFirst[1..] == [Undeclared] && [Undeclared][1..] == [];
    assert Run(oracle, failed, [Undeclared]) == WithOutcome(failed, Undeclared, oracle(failed, Undeclared));
    assert Run(oracle, Start, FormulaFirst) == Run(oracle, failed, [Undeclared]);
    var valued := Start.(values := Start.values[Undeclared := Number(1)]);
    Outcomes(rules, valued);
    assert FormulaLast[1..] == [Formula] && [Formula][1..] == [];
    assert Run(oracle, valued, [Formula]) == WithOutcome(valued, Formula, oracle(valued, Formula));
    assert Run(oracle, Start, FormulaLast) == Run(oracle, valued, [Formula]);
  }

  lemma MixedIsUndeclared()
    ensures !Declares(Mixed)
  {
    assert Mixed.criteria[1].column.field == 2;
    assert ColumnRef(0, 2) !in OwnColumns(Mixed);
    assert !NodeDeclares(Mixed);
  }

  lemma NotCoherent()
    ensures !Coherent(OneRow)
  {
    MixedRowIsPlain(Number(1), FormulaValue(One));
    MixedIsUndeclared();
  }

  // A document without early failures and without cycles whose records depend
  // on the order its two formulas are taken in, although neither declares a
  // read of the other.
  lemma MixedSchemasDependOnOrder(rules: Rules)
    ensures Eligible(OneRow) == {Formula, Undeclared} && (forall c :: !IsCyclic(OneRow, c)) && !Coherent(OneRow)
    ensures var y, oracle, both := SystemOf(OneRow), OracleOf(rules), {Formula, Undeclared};
      && Pass(y, oracle, Start, both) && Schedules(y, both, FormulaFirst) && Schedules(y, both, FormulaLast)
      && Run(oracle, Start, FormulaFirst) != Run(oracle, Start, FormulaLast)
  {
    MixedRowSystem(Number(1), One, SystemOf(OneRow));
    NotCoherent();
    BothOrders(SystemOf(OneRow), OracleOf(rules));
    BothRuns(rules);
  }
}
