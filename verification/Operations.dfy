/**
 What each form of formula computes, as one table of clauses about operands,
 columns, rows and cells; the evaluator is the only evaluation that obeys it.
 */
module Operations {
  import opened Model
  import opened Expressions
  import opened Criteria
  import opened Ordered
  import opened Evaluator
  import opened Meaning
  import opened Matching

  // What becomes of a computed value: the number it is when it is finite, with
  // one zero, and a failure otherwise.
  ghost predicate Delivers(f: Float, r: Result<Number>) {
    match f
    case Finite(rank) => r == Ok(Number(rank))
    case NegativeZero => r == Ok(Number(0))
    case _ => r == Err(NonFiniteResult)
  }

  lemma FinishDelivers(f: Float, r: Result<Number>)
    ensures Delivers(f, r) <==> r == Finish(f)
  {
  }

  // ---- References ----

  // How the schema of a cell's row defines its field.
  function DefinitionOf(document: Document, cell: FieldRef): Option<FieldDefinition> {
    if cell.entity !in document.entities then None
    else match SchemaOf(document, document.entities[cell.entity].schema)
      case None => None
      case Some(schema) => if cell.field in schema.fields then Some(schema.fields[cell.field]) else None
  }

  function SchemaOf(document: Document, schema: SchemaId): Option<Schema> {
    if schema in document.schemas then Some(document.schemas[schema]) else None
  }

  // The row exists and holds nothing there.
  predicate IsEmpty(document: Document, cell: FieldRef) {
    cell.entity in document.entities && Stored(document, cell) == None
  }

  // A recorded value; else zero for an empty cell of an optional number field.
  ghost predicate ReferenceMeans(s: Snapshot, cell: FieldRef, r: Result<Number>) {
    if cell in s.values then r == Ok(s.values[cell])
    else match DefinitionOf(s.document, cell)
      case Some(FieldDefinition(_, NumberType, false)) =>
        r == if IsEmpty(s.document, cell) then Ok(Number(0)) else Err(FailedDependencies({cell}))
      case _ => r == Err(FailedDependencies({cell}))
  }

  lemma ReferencesMean(s: Snapshot, cell: FieldRef, r: Result<Number>)
    ensures ReferenceMeans(s, cell, r) <==> r == ReferenceValueOf(s, cell)
  {
  }

  // ---- Columns ----

  ghost predicate LacksValue(s: Snapshot, cells: seq<FieldRef>, cell: FieldRef) {
    IsFirst(cells, (c: FieldRef) => c !in s.values, Some(cell))
  }

  // Whatever is computed over a column fails on its first cell without a value.
  ghost predicate FailsOnMissing(s: Snapshot, cells: seq<FieldRef>, r: Result<Number>) {
    exists cell :: LacksValue(s, cells, cell) && r == Err(FailedDependencies({cell}))
  }

  ghost predicate AllHaveValues(s: Snapshot, cells: seq<FieldRef>) {
    forall c :: c in cells ==> c in s.values
  }

  // A total adds the column's values in entity order, starting from zero.
  ghost predicate TotalMeans(rules: Rules, s: Snapshot, column: ColumnRef, r: Result<Number>) {
    var cells := ColumnCells(s.document, column);
    if AllHaveValues(s, cells) then Delivers(FoldFloats(rules.add, Finite(0), PresentOf(s, cells)), r)
    else FailsOnMissing(s, cells, r)
  }

  // Only a count has a result over no values; extremes fold from the infinities.
  ghost predicate AggregateMeans(rules: Rules, s: Snapshot, kind: ColumnAggregateFunction, column: ColumnRef, r: Result<Number>) {
    var cells := ColumnCells(s.document, column);
    var values := PresentOf(s, cells);
    if !AllHaveValues(s, cells) then FailsOnMissing(s, cells, r)
    else match kind
      case Count => Delivers(rules.count(|values|), r)
      case Average => if values == [] then r == Err(EmptyAggregate) else Delivers(rules.average(values), r)
      case Minimum => if values == [] then r == Err(EmptyAggregate) else Delivers(FoldFloats(rules.minimum, Infinite(false), values), r)
      case Maximum => if values == [] then r == Err(EmptyAggregate) else Delivers(FoldFloats(rules.maximum, Infinite(true), values), r)
  }

  lemma MissingMeans(rules: Rules, s: Snapshot, column: ColumnRef, r: Result<Number>)
    ensures var read, cells := ReadColumn(rules, s, column), ColumnCells(s.document, column);
      && (read.firstMissing == None <==> AllHaveValues(s, cells))
      && (read.firstMissing.Some? ==> (FailsOnMissing(s, cells, r) <==> r == Err(FailedDependencies({read.firstMissing.value}))))
  {
    ReadColumnMeans(rules, s, column);
    var read, cells := ReadColumn(rules, s, column), ColumnCells(s.document, column);
    var has := (c: FieldRef) => c !in s.values;
    if read.firstMissing.Some? {
      assert LacksValue(s, cells, read.firstMissing.value);
      forall cell | LacksValue(s, cells, cell) ensures cell == read.firstMissing.value {
        FirstIsUnique(cells, has, Some(cell), read.firstMissing);
      }
    }
  }

  lemma TotalsMean(rules: Rules, s: Snapshot, column: ColumnRef, r: Result<Number>)
    ensures TotalMeans(rules, s, column, r) <==> r == TotalOf(ReadColumn(rules, s, column))
  {
    ReadColumnMeans(rules, s, column);
    MissingMeans(rules, s, column, r);
    FinishDelivers(FoldFloats(rules.add, Finite(0), PresentOf(s, ColumnCells(s.document, column))), r);
  }

  lemma AggregatesMean(rules: Rules, s: Snapshot, kind: ColumnAggregateFunction, column: ColumnRef, r: Result<Number>)
    ensures AggregateMeans(rules, s, kind, column, r) <==> r == AggregateOf(rules, kind, ReadColumn(rules, s, column))
  {
    ReadColumnMeans(rules, s, column);
    MissingMeans(rules, s, column, r);
    var values := PresentOf(s, ColumnCells(s.document, column));
    FinishDelivers(match kind
      case Count => rules.count(|values|)
      case Average => rules.average(values)
      case Minimum => FoldFloats(rules.minimum, Infinite(false), values)
      case Maximum => FoldFloats(rules.maximum, Infinite(true), values), r);
  }

  // ---- Arithmetic and comparison ----

  function RuleOf(rules: Rules, operator: BinaryOperator): (Float, Float) -> Float {
    match operator
    case Plus => rules.add
    case Minus => rules.subtract
    case Times => rules.multiply
    case Over => rules.divide
    case Smaller => rules.minimum
    case Larger => rules.maximum
  }

  // The first operand that fails decides; else the operator's rule over the
  // operands as they stand, except that nothing is divided by zero.
  ghost predicate BinaryMeans(rules: Rules, operator: BinaryOperator, left: Result<Number>, right: Result<Number>, r: Result<Number>) {
    match (left, right)
    case (Err(_), _) => r == left
    case (_, Err(_)) => r == right
    case (Ok(x), Ok(y)) =>
      if operator == Over && y.rank == 0 then r == Err(DivisionByZero)
      else Delivers(RuleOf(rules, operator)(Finite(x.rank), Finite(y.rank)), r)
  }

  predicate InOrder(operator: ComparisonOperator, x: int, y: int) {
    match operator
    case Equal => x == y
    case NotEqual => x < y || y < x
    case Less => x < y
    case LessOrEqual => !(y < x)
    case Greater => y < x
    case GreaterOrEqual => !(x < y)
  }

  ghost predicate CompareMeans(operator: ComparisonOperator, left: Result<Number>, right: Result<Number>, r: Result<bool>) {
    match (left, right)
    case (Err(failure), _) => r == Err(failure)
    case (_, Err(failure)) => r == Err(failure)
    case (Ok(x), Ok(y)) => r == Ok(InOrder(operator, x.rank, y.rank))
  }

  // An integral number is its own rounding, whatever the digits.
  ghost predicate RoundMeans(rules: Rules, digits: nat, operand: Result<Number>, r: Result<Number>) {
    match operand
    case Err(_) => r == operand
    case Ok(x) =>
      if digits > 10 then r == Err(TypeMismatch)
      else if rules.integral(Finite(x.rank)) then r == operand
      else Delivers(rules.roundDecimal(Finite(x.rank), digits), r)
  }

  // ---- AND and OR ----

  ghost predicate FirstFailing(results: seq<Result<bool>>, i: nat) {
    i < |results| && results[i].Err? && forall j :: 0 <= j < i ==> results[j].Ok?
  }

  // Every argument is evaluated, also after the answer is settled.
  ghost predicate LogicalMeans(connective: Connective, results: seq<Result<bool>>, r: Result<bool>) {
    if forall i :: 0 <= i < |results| ==> results[i].Ok? then
      r == Ok(if connective.And? then forall i :: 0 <= i < |results| ==> results[i] == Ok(true) else Ok(true) in results)
    else exists i: nat :: FirstFailing(results, i) && r == results[i]
  }

  function Outcomes(conditions: Expression -> Result<bool>, arguments: seq<Expression>): seq<Result<bool>> {
    seq(|arguments|, i requires 0 <= i < |arguments| => conditions(arguments[i]))
  }

  // ---- Conditional aggregates ----

  function EqualTo(rules: Rules, operator: ComparisonOperator, number: Number): CriterionTest {
    CriterionTest(operator, NumberOperand(Finite(number.rank)), rules.numberText(Finite(number.rank)))
  }

  // A criterion that is a cell compares with what the cell holds: an empty one
  // is zero, a text is read as a criterion of its own.
  ghost predicate CellTestMeans(rules: Rules, s: Snapshot, cell: FieldRef, t: Result<CriterionTest>) {
    match Stored(s.document, cell)
    case None => t == Ok(EqualTo(rules, Equal, Number(0)))
    case Some(TextValue(text)) => t == (match ParseTest(rules, text) case Some(test) => Ok(test) case None => Err(TypeMismatch))
    case Some(BooleanValue(true)) => t == Ok(CriterionTest(Equal, BooleanOperand(true), "true"))
    case Some(BooleanValue(false)) => t == Ok(CriterionTest(Equal, BooleanOperand(false), "false"))
    case Some(DateValue(date)) => t == Ok(CriterionTest(Equal, DateOperand(date), rules.dateText(date)))
    case Some(ReferenceValue(_)) => t == Err(TypeMismatch)
    case Some(_) => t == if cell in s.values then Ok(EqualTo(rules, Equal, s.values[cell])) else Err(FailedDependencies({cell}))
  }

  // A number may be compared in any way; a blank and a computed operand only be
  // equal, a blank also not equal.
  ghost predicate TestMeans(
    rules: Rules, s: Snapshot, owner: FieldRef, numbers: Expression -> Result<Number>, criterion: ColumnCriterion, t: Result<CriterionTest>
  ) {
    match criterion.operand
    case Some(Literal(number)) => t == Ok(EqualTo(rules, criterion.operator, number))
    case Some(e) =>
      if criterion.operator != Equal then t == Err(TypeMismatch)
      else if IsCellReference(e) then CellTestMeans(rules, s, Target(owner, e), t)
      else (match numbers(e) case Ok(number) => t == Ok(EqualTo(rules, Equal, number)) case Err(failure) => t == Err(failure))
    case None =>
      t == if criterion.operator in {Equal, NotEqual} then Ok(CriterionTest(criterion.operator, TextOperand, "")) else Err(TypeMismatch)
  }

  ghost predicate TestsMean(
    rules: Rules, s: Snapshot, owner: FieldRef, numbers: Expression -> Result<Number>, criteria: seq<ColumnCriterion>,
    tests: seq<CriterionTest>
  ) {
    |tests| <= |criteria| && forall i :: 0 <= i < |tests| ==> TestMeans(rules, s, owner, numbers, criteria[i], Ok(tests[i]))
  }

  // What a criterion reads in a cell.
  ghost predicate CellMeans(s: Snapshot, cell: FieldRef, c: Result<Option<CriterionCell>>) {
    match Stored(s.document, cell)
    case None => c == Ok(None)
    case Some(TextValue(text)) => c == Ok(Some(TextCell(text)))
    case Some(BooleanValue(boolean)) => c == Ok(Some(BooleanCell(boolean)))
    case Some(DateValue(date)) => c == Ok(Some(DateCell(date)))
    case Some(ReferenceValue(_)) => c == Err(TypeMismatch)
    case Some(_) => c == if cell in s.values then Ok(Some(NumberCell(Finite(s.values[cell].rank)))) else Err(FailedDependencies({cell}))
  }

  ghost predicate IsMet(rules: Rules, s: Snapshot, cell: FieldRef, test: CriterionTest) {
    exists c :: CellMeans(s, cell, Ok(c)) && Matches(rules, test, c)
  }

  // What a row that meets every criterion adds.
  ghost predicate RowAdds(s: Snapshot, aggregate: ConditionalAggregate, row: EntityId, o: Result<Option<seq<Float>>>) {
    match aggregate
    case CountRows => o == Ok(Some([]))
    case _ =>
      var cell := FieldRef(row, aggregate.column.field);
      if Stored(s.document, cell) == None then o == Ok(Some([]))
      else o == if cell in s.values then Ok(Some([Finite(s.values[cell].rank)])) else Err(FailedDependencies({cell}))
  }

  // The criteria are looked at in order up to the first one not met.
  ghost predicate RowMeans(
    rules: Rules, s: Snapshot, aggregate: ConditionalAggregate, columns: seq<ColumnRef>, tests: seq<CriterionTest>, row: EntityId,
    o: Result<Option<seq<Float>>>
  )
    requires |columns| == |tests|
  {
    exists n: nat :: DecidedAt(rules, s, aggregate, columns, tests, row, n, o)
  }

  ghost predicate DecidedAt(
    rules: Rules, s: Snapshot, aggregate: ConditionalAggregate, columns: seq<ColumnRef>, tests: seq<CriterionTest>, row: EntityId,
    n: nat, o: Result<Option<seq<Float>>>
  )
    requires |columns| == |tests|
  {
    && n <= |tests| && (forall k :: 0 <= k < n ==> IsMet(rules, s, FieldRef(row, columns[k].field), tests[k]))
    && if n == |tests| then RowAdds(s, aggregate, row, o)
       else UnmetGives(rules, s, FieldRef(row, columns[n].field), tests[n], o)
  }

  ghost predicate UnmetGives(rules: Rules, s: Snapshot, cell: FieldRef, test: CriterionTest, o: Result<Option<seq<Float>>>) {
    && !IsMet(rules, s, cell, test)
    && match o
       case Ok(contribution) => contribution == None && exists c :: CellMeans(s, cell, Ok(c))
       case Err(failure) => CellMeans(s, cell, Err(failure))
  }

  lemma CellsMean(s: Snapshot, cell: FieldRef, c: Result<Option<CriterionCell>>)
    ensures CellMeans(s, cell, c) <==> c == CriterionCellOf(s, cell)
  {
  }

  lemma MetMeans(rules: Rules, s: Snapshot, column: ColumnRef, test: CriterionTest, row: EntityId)
    ensures IsMet(rules, s, FieldRef(row, column.field), test) <==> Meets(rules, s, column, test, row)
  {
    var cell := FieldRef(row, column.field);
    forall c ensures CellMeans(s, cell, c) <==> c == CriterionCellOf(s, cell) { CellsMean(s, cell, c); }
    if Meets(rules, s, column, test, row) { assert CellMeans(s, cell, Ok(CriterionCellOf(s, cell).value)); }
  }

  lemma AddsMeans(s: Snapshot, aggregate: ConditionalAggregate, row: EntityId, o: Result<Option<seq<Float>>>)
    ensures RowAdds(s, aggregate, row, o) <==>
      o == match RowValue(s, aggregate, row) case Ok(values) => Ok(Some(values)) case Err(failure) => Err(failure)
  {
  }

  // What a row contributes to a conditional, or the failure it stops it with.
  lemma RowOutcomeMeans(
    rules: Rules, s: Snapshot, aggregate: ConditionalAggregate, columns: seq<ColumnRef>, tests: seq<CriterionTest>, row: EntityId
  )
    requires |columns| == |tests|
    ensures RowMeans(rules, s, aggregate, columns, tests, row, RowOutcome(rules, s, aggregate, columns, tests, row))
  {
    var o := RowOutcome(rules, s, aggregate, columns, tests, row);
    RowMatchesMeans(rules, s, columns, tests, row, 0);
    forall k | 0 <= k < |tests|
      ensures IsMet(rules, s, FieldRef(row, columns[k].field), tests[k]) <==> Meets(rules, s, columns[k], tests[k], row)
    {
      MetMeans(rules, s, columns[k], tests[k], row);
    }
    match RowMatches(rules, s, columns, tests, row, 0)
    case Ok(true) =>
      AddsMeans(s, aggregate, row, o);
      assert DecidedAt(rules, s, aggregate, columns, tests, row, |tests|, o);
    case Ok(false) =>
      var n :| 0 <= n < |tests| && MeetsUpTo(rules, s, columns, tests, row, 0, n)
               && CriterionCellOf(s, FieldRef(row, columns[n].field)).Ok? && !Meets(rules, s, columns[n], tests[n], row);
      CellsMean(s, FieldRef(row, columns[n].field), CriterionCellOf(s, FieldRef(row, columns[n].field)));
      assert DecidedAt(rules, s, aggregate, columns, tests, row, n, o);
    case Err(failure) =>
      var n :| 0 <= n < |tests| && MeetsUpTo(rules, s, columns, tests, row, 0, n)
               && CriterionCellOf(s, FieldRef(row, columns[n].field)) == Err(failure);
      CellsMean(s, FieldRef(row, columns[n].field), CriterionCellOf(s, FieldRef(row, columns[n].field)));
      assert DecidedAt(rules, s, aggregate, columns, tests, row, n, o);
  }

  // What a conditional makes of its rows: the selected ones counted, or their
  // values added or averaged in entity order; the first row that fails decides.
  ghost predicate WalkGives(
    rules: Rules, s: Snapshot, aggregate: ConditionalAggregate, columns: seq<ColumnRef>, tests: seq<CriterionTest>, r: Result<Number>
  )
    requires |columns| == |tests| && columns != []
  {
    var rows := RowOrder(s.document, columns[0].schema);
    if forall row :: row in rows ==> RowOutcome(rules, s, aggregate, columns, tests, row).Ok? then
      var selected := Selected(rules, s, columns, tests, rows);
      SelectedGive(rules, aggregate, |selected|, ValuesOf(s, aggregate, selected), r)
    else exists i: nat, failure :: StopsAt(rules, s, aggregate, columns, tests, rows, i, failure) && r == Err(failure)
  }

  ghost predicate SelectedGive(rules: Rules, aggregate: ConditionalAggregate, rows: nat, values: seq<Float>, r: Result<Number>) {
    match aggregate
    case CountRows => Delivers(rules.count(rows), r)
    case SumOf(_) => Delivers(FoldFloats(rules.add, Finite(0), values), r)
    case AverageOf(_) => if values == [] then r == Err(EmptyAggregate) else Delivers(rules.average(values), r)
  }

  lemma SelectedFinish(rules: Rules, aggregate: ConditionalAggregate, rows: nat, values: seq<Float>, r: Result<Number>)
    ensures SelectedGive(rules, aggregate, rows, values, r) <==> r == FinishConditional(rules, aggregate, Ok(Matched(rows, values)))
  {
    FinishDelivers(rules.count(rows), r);
    FinishDelivers(FoldFloats(rules.add, Finite(0), values), r);
    FinishDelivers(rules.average(values), r);
  }

  lemma StopsOnce(
    rules: Rules, s: Snapshot, aggregate: ConditionalAggregate, columns: seq<ColumnRef>, tests: seq<CriterionTest>,
    rows: seq<EntityId>, i: nat, f: CalculationFailure, j: nat, g: CalculationFailure
  )
    requires |columns| == |tests|
    requires StopsAt(rules, s, aggregate, columns, tests, rows, i, f) && StopsAt(rules, s, aggregate, columns, tests, rows, j, g)
    ensures f == g
  {
  }

  lemma WalksGive(
    rules: Rules, s: Snapshot, aggregate: ConditionalAggregate, columns: seq<ColumnRef>, tests: seq<CriterionTest>, r: Result<Number>
  )
    requires |columns| == |tests| && columns != []
    ensures WalkGives(rules, s, aggregate, columns, tests, r) <==> r == ConditionalOf(rules, s, aggregate, columns, tests)
  {
    var rows := RowOrder(s.document, columns[0].schema);
    var walked := WalkRows(rules, s, aggregate, columns, tests, rows, Matched(0, []));
    if forall row :: row in rows ==> RowOutcome(rules, s, aggregate, columns, tests, row).Ok? {
      WalkSelects(rules, s, aggregate, columns, tests, rows);
      var selected := Selected(rules, s, columns, tests, rows);
      SelectedFinish(rules, aggregate, |selected|, ValuesOf(s, aggregate, selected), r);
    } else {
      WalkMeans(rules, s, aggregate, columns, tests, rows, Matched(0, []));
      var i: nat :| StopsAt(rules, s, aggregate, columns, tests, rows, i, walked.failure);
      forall j: nat, failure | StopsAt(rules, s, aggregate, columns, tests, rows, j, failure) ensures failure == walked.failure {
        StopsOnce(rules, s, aggregate, columns, tests, rows, i, walked.failure, j, failure);
      }
    }
  }

  // All tests are there, or the first criterion that has none gives its failure.
  ghost predicate ConditionalMeans(
    rules: Rules, s: Snapshot, owner: FieldRef, numbers: Expression -> Result<Number>, aggregate: ConditionalAggregate,
    criteria: seq<ColumnCriterion>, r: Result<Number>
  ) {
    if criteria == [] then r == Err(TypeMismatch)
    else exists tests ::
      && TestsMean(rules, s, owner, numbers, criteria, tests)
      && if |tests| < |criteria|
         then r.Err? && TestMeans(rules, s, owner, numbers, criteria[|tests|], Err(r.failure))
         else WalkGives(rules, s, aggregate, CriterionColumns(criteria), tests, r)
  }

  // ---- The clauses ----

  ghost predicate NumberClause(
    rules: Rules, s: Snapshot, owner: FieldRef, numbers: Expression -> Result<Number>, conditions: Expression -> Result<bool>, e: Expression
  ) {
    var r := numbers(e);
    match e
    case Literal(number) => r == Ok(number)
    case Reference(reference) => ReferenceMeans(s, reference, r)
    case SameRow(field) => ReferenceMeans(s, FieldRef(owner.entity, field), r)
    case ColumnTotal(column) => TotalMeans(rules, s, column, r)
    case ColumnAggregate(kind, column) => AggregateMeans(rules, s, kind, column, r)
    case ColumnConditional(aggregate, criteria) => ConditionalMeans(rules, s, owner, numbers, aggregate, criteria, r)
    case Binary(operator, left, right) => BinaryMeans(rules, operator, numbers(left), numbers(right), r)
    case If(condition, thenValue, elseValue) =>
      r == (match conditions(condition) case Ok(true) => numbers(thenValue) case Ok(false) => numbers(elseValue)
                                        case Err(failure) => Err(failure))
    case Round(operand, digits) => RoundMeans(rules, digits, numbers(operand), r)
    case _ => r == Err(TypeMismatch)
  }

  ghost predicate ConditionClause(
    s: Snapshot, owner: FieldRef, numbers: Expression -> Result<Number>, conditions: Expression -> Result<bool>, e: Expression
  ) {
    var r := conditions(e);
    match e
    case Compare(operator, left, right) => CompareMeans(operator, numbers(left), numbers(right), r)
    case Logical(connective, arguments) => LogicalMeans(connective, Outcomes(conditions, arguments), r)
    case Not(operand) => r == (match conditions(operand) case Ok(holds) => Ok(!holds) case Err(failure) => Err(failure))
    case IsBlank(Reference(reference)) => r == Ok(IsEmpty(s.document, reference))
    case IsBlank(SameRow(field)) => r == Ok(IsEmpty(s.document, FieldRef(owner.entity, field)))
    case _ => r == Err(TypeMismatch)
  }

  // The evaluation gives every formula what its clause asks for.
  ghost predicate Obeys(
    rules: Rules, s: Snapshot, owner: FieldRef, numbers: Expression -> Result<Number>, conditions: Expression -> Result<bool>
  ) {
    forall e :: NumberClause(rules, s, owner, numbers, conditions, e) && ConditionClause(s, owner, numbers, conditions, e)
  }

  // The evaluation and the evaluator agree on a formula.
  ghost predicate AgreesOn(
    rules: Rules, s: Snapshot, owner: FieldRef, numbers: Expression -> Result<Number>, conditions: Expression -> Result<bool>, e: Expression
  ) {
    numbers(e) == NumberOf(rules, s, owner, e) && conditions(e) == ConditionOf(rules, s, owner, e)
  }

  ghost predicate AgreesBelow(
    rules: Rules, s: Snapshot, owner: FieldRef, numbers: Expression -> Result<Number>, conditions: Expression -> Result<bool>, e: Expression
  ) {
    forall c :: c in Children(e) ==> AgreesOn(rules, s, owner, numbers, conditions, c)
  }

  lemma TestsMeanOf(
    rules: Rules, s: Snapshot, owner: FieldRef, numbers: Expression -> Result<Number>, criterion: ColumnCriterion, parent: Expression,
    t: Result<CriterionTest>
  )
    requires criterion.operand.Some? ==>
      criterion.operand.value < parent && numbers(criterion.operand.value) == NumberOf(rules, s, owner, criterion.operand.value)
    ensures TestMeans(rules, s, owner, numbers, criterion, t) <==> t == TestOf(rules, s, owner, criterion, parent)
  {
    if criterion.operand.Some? && IsCellReference(criterion.operand.value) {
      CellTestsMean(rules, s, Target(owner, criterion.operand.value), t);
    }
  }

  lemma CellTestsMean(rules: Rules, s: Snapshot, cell: FieldRef, t: Result<CriterionTest>)
    ensures CellTestMeans(rules, s, cell, t) <==> t == ReferenceTest(rules, s, cell)
  {
  }

  // The tests of the first criteria, up to the first that has none.
  lemma {:induction false} TestsOfMeans(rules: Rules, s: Snapshot, owner: FieldRef, criteria: seq<ColumnCriterion>, parent: Expression)
      returns (tests: seq<CriterionTest>)
    requires forall k :: k in criteria && k.operand.Some? ==> k.operand.value < parent
    ensures |tests| <= |criteria|
    ensures forall i :: 0 <= i < |tests| ==> TestOf(rules, s, owner, criteria[i], parent) == Ok(tests[i])
    ensures match TestsOf(rules, s, owner, criteria, parent)
      case Ok(all) => tests == all
      case Err(failure) => |tests| < |criteria| && TestOf(rules, s, owner, criteria[|tests|], parent) == Err(failure)
    decreases |criteria|
  {
    if criteria == [] {
      tests := [];
    } else {
      assert criteria[0] in criteria && forall k :: k in criteria[1..] ==> k in criteria;
      var first := TestOf(rules, s, owner, criteria[0], parent);
      if first.Err? {
        tests := [];
      } else {
        var rest := TestsOfMeans(rules, s, owner, criteria[1..], parent);
        tests := [first.value] + rest;
      }
    }
  }

  lemma SameTests(
    rules: Rules, s: Snapshot, owner: FieldRef, criteria: seq<ColumnCriterion>, parent: Expression,
    a: seq<CriterionTest>, b: seq<CriterionTest>
  )
    requires forall k :: k in criteria && k.operand.Some? ==> k.operand.value < parent
    requires |a| <= |criteria| && |b| <= |criteria|
    requires forall i :: 0 <= i < |a| ==> TestOf(rules, s, owner, criteria[i], parent) == Ok(a[i])
    requires forall i :: 0 <= i < |b| ==> TestOf(rules, s, owner, criteria[i], parent) == Ok(b[i])
    requires |a| < |criteria| ==> TestOf(rules, s, owner, criteria[|a|], parent).Err?
    requires |b| < |criteria| ==> TestOf(rules, s, owner, criteria[|b|], parent).Err?
    ensures a == b
  {
  }

  lemma ConditionalsMean(
    rules: Rules, s: Snapshot, owner: FieldRef, numbers: Expression -> Result<Number>, conditions: Expression -> Result<bool>,
    e: Expression, r: Result<Number>
  )
    requires e.ColumnConditional? && AgreesBelow(rules, s, owner, numbers, conditions, e)
    ensures ConditionalMeans(rules, s, owner, numbers, e.aggregate, e.criteria, r) <==> r == NumberOf(rules, s, owner, e)
  {
    var criteria := e.criteria;
    if criteria != [] {
      forall k, t | k in criteria
        ensures TestMeans(rules, s, owner, numbers, k, t) <==> t == TestOf(rules, s, owner, k, e)
      {
        if k.operand.Some? { assert k.operand.value in Operands(criteria) && k.operand.value in Children(e); }
        TestsMeanOf(rules, s, owner, numbers, k, e, t);
      }
      var found := TestsOfMeans(rules, s, owner, criteria, e);
      assert TestsMean(rules, s, owner, numbers, criteria, found);
      if |found| == |criteria| { WalksGive(rules, s, e.aggregate, CriterionColumns(criteria), found, r); }
      forall tests | TestsMean(rules, s, owner, numbers, criteria, tests)
                     && (|tests| < |criteria| ==> TestOf(rules, s, owner, criteria[|tests|], e).Err?)
        ensures tests == found
      {
        SameTests(rules, s, owner, criteria, e, tests, found);
      }
    }
  }

  lemma LogicalsMean(
    rules: Rules, s: Snapshot, owner: FieldRef, numbers: Expression -> Result<Number>, conditions: Expression -> Result<bool>,
    e: Expression, r: Result<bool>
  )
    requires e.Logical? && AgreesBelow(rules, s, owner, numbers, conditions, e)
    ensures LogicalMeans(e.connective, Outcomes(conditions, e.arguments), r) <==> r == ConditionOf(rules, s, owner, e)
  {
    var results := Outcomes(conditions, e.arguments);
    forall i | 0 <= i < |results| ensures results[i] == ConditionOf(rules, s, owner, e.arguments[i]) {
      assert e.arguments[i] in Children(e);
    }
    ConnectiveMeans(rules, s, owner, e.connective, e.arguments, e.connective.And?, e);
    LogicalIsFirst(e.connective, results, r, ConditionOf(rules, s, owner, e));
  }

  lemma LogicalIsFirst(connective: Connective, results: seq<Result<bool>>, r: Result<bool>, answer: Result<bool>)
    requires match answer
      case Ok(holds) =>
        && (forall i :: 0 <= i < |results| ==> results[i].Ok?)
        && (holds <==> if connective.And? then forall i :: 0 <= i < |results| ==> results[i] == Ok(true)
                       else exists i :: 0 <= i < |results| && results[i] == Ok(true))
      case Err(failure) => exists i :: 0 <= i < |results| && results[i] == Err(failure) && forall j :: 0 <= j < i ==> results[j].Ok?
    ensures LogicalMeans(connective, results, r) <==> r == answer
  {
    if answer.Err? {
      var i: nat :| i < |results| && results[i] == answer && forall j :: 0 <= j < i ==> results[j].Ok?;
      assert FirstFailing(results, i);
      forall k: nat | FirstFailing(results, k) ensures k == i {
      }
    }
  }

  lemma NumberClauseMeans(
    rules: Rules, s: Snapshot, owner: FieldRef, numbers: Expression -> Result<Number>, conditions: Expression -> Result<bool>, e: Expression
  )
    requires AgreesBelow(rules, s, owner, numbers, conditions, e)
    ensures NumberClause(rules, s, owner, numbers, conditions, e) <==> numbers(e) == NumberOf(rules, s, owner, e)
  {
    var r := numbers(e);
    match e
    case Reference(reference) => ReferencesMean(s, reference, r);
    case SameRow(field) => ReferencesMean(s, FieldRef(owner.entity, field), r);
    case ColumnTotal(column) => TotalsMean(rules, s, column, r);
    case ColumnAggregate(kind, column) => AggregatesMean(rules, s, kind, column, r);
    case ColumnConditional(_, _) => ConditionalsMean(rules, s, owner, numbers, conditions, e, r);
    case Binary(operator, left, right) => BinariesMean(rules, s, owner, numbers, conditions, e, r);
    case If(condition, thenValue, elseValue) =>
      assert condition in Children(e) && thenValue in Children(e) && elseValue in Children(e);
    case Round(operand, digits) => RoundsMean(rules, s, owner, numbers, conditions, e, r);
    case _ =>
  }

  lemma BinariesMean(
    rules: Rules, s: Snapshot, owner: FieldRef, numbers: Expression -> Result<Number>, conditions: Expression -> Result<bool>,
    e: Expression, r: Result<Number>
  )
    requires e.Binary? && AgreesBelow(rules, s, owner, numbers, conditions, e)
    ensures BinaryMeans(rules, e.binary, numbers(e.left), numbers(e.right), r) <==> r == NumberOf(rules, s, owner, e)
  {
    assert e.left in Children(e) && e.right in Children(e);
    if numbers(e.left).Ok? && numbers(e.right).Ok? {
      var x, y := numbers(e.left).value, numbers(e.right).value;
      FinishDelivers(RuleOf(rules, e.binary)(Finite(x.rank), Finite(y.rank)), r);
    }
  }

  lemma RoundsMean(
    rules: Rules, s: Snapshot, owner: FieldRef, numbers: Expression -> Result<Number>, conditions: Expression -> Result<bool>,
    e: Expression, r: Result<Number>
  )
    requires e.Round? && AgreesBelow(rules, s, owner, numbers, conditions, e)
    ensures RoundMeans(rules, e.digits, numbers(e.operand), r) <==> r == NumberOf(rules, s, owner, e)
  {
    assert e.operand in Children(e);
    if numbers(e.operand).Ok? {
      FinishDelivers(rules.roundDecimal(Finite(numbers(e.operand).value.rank), e.digits), r);
    }
  }

  lemma ConditionClauseMeans(
    rules: Rules, s: Snapshot, owner: FieldRef, numbers: Expression -> Result<Number>, conditions: Expression -> Result<bool>, e: Expression
  )
    requires AgreesBelow(rules, s, owner, numbers, conditions, e)
    ensures ConditionClause(s, owner, numbers, conditions, e) <==> conditions(e) == ConditionOf(rules, s, owner, e)
  {
    match e
    case Compare(_, _, _) => ComparesMean(rules, s, owner, numbers, conditions, e, conditions(e));
    case Logical(_, _) => LogicalsMean(rules, s, owner, numbers, conditions, e, conditions(e));
    case Not(operand) => assert operand in Children(e);
    case _ =>
  }

  lemma ComparesMean(
    rules: Rules, s: Snapshot, owner: FieldRef, numbers: Expression -> Result<Number>, conditions: Expression -> Result<bool>,
    e: Expression, r: Result<bool>
  )
    requires e.Compare? && AgreesBelow(rules, s, owner, numbers, conditions, e)
    ensures CompareMeans(e.operator, numbers(e.left), numbers(e.right), r) <==> r == ConditionOf(rules, s, owner, e)
  {
    assert e.left in Children(e) && e.right in Children(e);
  }

  lemma {:induction false} ObeyingAgrees(
    rules: Rules, s: Snapshot, owner: FieldRef, numbers: Expression -> Result<Number>, conditions: Expression -> Result<bool>, e: Expression
  )
    requires Obeys(rules, s, owner, numbers, conditions)
    ensures AgreesOn(rules, s, owner, numbers, conditions, e)
  {
    forall c | c in Children(e) ensures AgreesOn(rules, s, owner, numbers, conditions, c) {
      ObeyingAgrees(rules, s, owner, numbers, conditions, c);
    }
    NumberClauseMeans(rules, s, owner, numbers, conditions, e);
    ConditionClauseMeans(rules, s, owner, numbers, conditions, e);
  }

  lemma AgreeingObeys(
    rules: Rules, s: Snapshot, owner: FieldRef, numbers: Expression -> Result<Number>, conditions: Expression -> Result<bool>, e: Expression
  )
    requires AgreesOn(rules, s, owner, numbers, conditions, e) && AgreesBelow(rules, s, owner, numbers, conditions, e)
    ensures NumberClause(rules, s, owner, numbers, conditions, e) && ConditionClause(s, owner, numbers, conditions, e)
  {
    NumberClauseMeans(rules, s, owner, numbers, conditions, e);
    ConditionClauseMeans(rules, s, owner, numbers, conditions, e);
  }

  // The evaluator obeys every clause, and nothing else does.
  lemma EvaluatorIsTheOne(
    rules: Rules, s: Snapshot, owner: FieldRef, numbers: Expression -> Result<Number>, conditions: Expression -> Result<bool>
  )
    ensures Obeys(rules, s, owner, numbers, conditions) <==> forall e :: AgreesOn(rules, s, owner, numbers, conditions, e)
  {
    if Obeys(rules, s, owner, numbers, conditions) {
      forall e ensures AgreesOn(rules, s, owner, numbers, conditions, e) {
        ObeyingAgrees(rules, s, owner, numbers, conditions, e);
      }
    }
    if forall e :: AgreesOn(rules, s, owner, numbers, conditions, e) {
      forall e ensures NumberClause(rules, s, owner, numbers, conditions, e) && ConditionClause(s, owner, numbers, conditions, e) {
        AgreeingObeys(rules, s, owner, numbers, conditions, e);
      }
    }
  }

  // ---- Counting ----

  // The cell holds a number, or a formula with a value, in that order to y.
  predicate Stands(s: Snapshot, cell: FieldRef, operator: ComparisonOperator, y: int) {
    && Stored(s.document, cell).Some?
    && (Stored(s.document, cell).value.NumberValue? || Stored(s.document, cell).value.FormulaValue?)
    && cell in s.values && InOrder(operator, s.values[cell].rank, y)
  }

  function Standing(s: Snapshot, column: ColumnRef, operator: ComparisonOperator, y: int): set<EntityId> {
    set row | row in Rows(s.document, column.schema) && Stands(s, FieldRef(row, column.field), operator, y)
  }

  // The first row, in order, whose cell of the column cannot be compared.
  ghost predicate FailsFirst(s: Snapshot, column: ColumnRef, row: EntityId, failure: CalculationFailure) {
    && row in Rows(s.document, column.schema) && CellMeans(s, FieldRef(row, column.field), Err(failure))
    && forall other :: other in Rows(s.document, column.schema) && other < row ==>
         exists c :: CellMeans(s, FieldRef(other, column.field), Ok(c))
  }

  // How a row's cell decides what the row counts.
  ghost predicate CountsBy(rules: Rules, s: Snapshot, column: ColumnRef, test: CriterionTest, y: int, row: EntityId) {
    var cell, o := FieldRef(row, column.field), RowOutcome(rules, s, CountRows, [column], [test], row);
    && (forall failure :: CellMeans(s, cell, Err(failure)) <==> o == Err(failure))
    && (o.Ok? ==> exists c :: CellMeans(s, cell, Ok(c)))
    && (RowMatches(rules, s, [column], [test], row, 0) == Ok(true) <==> Stands(s, cell, test.operator, y))
  }

  lemma OneRow(rules: Rules, s: Snapshot, column: ColumnRef, test: CriterionTest, y: int, row: EntityId)
    requires test.operator in {Less, LessOrEqual, Greater, GreaterOrEqual} && test.operand == NumberOperand(Finite(y))
    ensures CountsBy(rules, s, column, test, y, row)
  {
    var cell := FieldRef(row, column.field);
    var read := CriterionCellOf(s, cell);
    assert RowMatches(rules, s, [column], [test], row, 1) == Ok(true);
    forall c ensures CellMeans(s, cell, c) <==> c == read { CellsMean(s, cell, c); }
    if read.Ok? { assert CellMeans(s, cell, Ok(read.value)); }
    if read.Ok? && read.value.Some? && read.value.value.NumberCell? {
      assert test == CriterionTest(test.operator, NumberOperand(Finite(y)), test.text);
      NumbersStandInOrder(rules, Finite(s.values[cell].rank), s.values[cell].rank, Finite(y), y, test.text);
    } else if read.Ok? && Matches(rules, test, read.value) {
      OnlyNumbersAndDatesAreOrdered(rules, test, read.value);
    }
  }

  lemma {:induction false} SelectedCount(
    rules: Rules, s: Snapshot, columns: seq<ColumnRef>, tests: seq<CriterionTest>, rows: seq<EntityId>, chosen: set<EntityId>
  )
    requires |columns| == |tests| && Increasing(rows)
    requires forall row :: row in chosen <==> row in rows && RowMatches(rules, s, columns, tests, row, 0) == Ok(true)
    ensures |Selected(rules, s, columns, tests, rows)| == |chosen|
  {
    if rows == [] {
      assert chosen == {};
    } else {
      assert rows == [rows[0]] + rows[1..];
      SelectedCount(rules, s, columns, tests, rows[1..], chosen - {rows[0]});
      assert rows[0] in chosen ==> chosen == chosen - {rows[0]} + {rows[0]};
      assert rows[0] !in chosen ==> chosen == chosen - {rows[0]};
    }
  }

  // A count with one relational test is the number of rows whose value stands
  // in that order to the operand, unless a row before any other cannot be read.
  lemma CountMeans(rules: Rules, s: Snapshot, owner: FieldRef, column: ColumnRef, operator: ComparisonOperator, y: Number)
    requires operator in {Less, LessOrEqual, Greater, GreaterOrEqual}
    ensures var r := NumberOf(rules, s, owner, ColumnConditional(CountRows, [ColumnCriterion(column, operator, Some(Literal(y)))]));
      || (exists row, failure :: FailsFirst(s, column, row, failure) && r == Err(failure))
      || (&& (forall row, failure :: row in Rows(s.document, column.schema) ==> !CellMeans(s, FieldRef(row, column.field), Err(failure)))
          && Delivers(rules.count(|Standing(s, column, operator, y.rank)|), r))
  {
    var criteria := [ColumnCriterion(column, operator, Some(Literal(y)))];
    var e := ColumnConditional(CountRows, criteria);
    var test := NumberTest(rules, operator, y.Get());
    OneTest(rules, s, owner, criteria, e, test);
    assert CriterionColumns(criteria) == [column];
    var r := ConditionalOf(rules, s, CountRows, [column], [test]);
    assert NumberOf(rules, s, owner, e) == r;
    WalksGive(rules, s, CountRows, [column], [test], r);
    forall row ensures CountsBy(rules, s, column, test, y.rank, row) { OneRow(rules, s, column, test, y.rank, row); }
    if forall row :: row in RowOrder(s.document, column.schema) ==> RowOutcome(rules, s, CountRows, [column], [test], row).Ok? {
      AllCounted(rules, s, column, test, y.rank, r);
    } else {
      SomeRowFails(rules, s, column, test, y.rank, r);
    }
  }

  lemma OneTest(
    rules: Rules, s: Snapshot, owner: FieldRef, criteria: seq<ColumnCriterion>, parent: Expression, test: CriterionTest
  )
    requires |criteria| == 1 && criteria[0].operand.Some? && criteria[0].operand.value < parent
    requires TestOf(rules, s, owner, criteria[0], parent) == Ok(test)
    ensures TestsOf(rules, s, owner, criteria, parent) == Ok([test])
  {
    assert TestsOf(rules, s, owner, criteria[1..], parent) == Ok([]);
    assert [test] + [] == [test];
  }

  lemma AllCounted(rules: Rules, s: Snapshot, column: ColumnRef, test: CriterionTest, y: int, r: Result<Number>)
    requires WalkGives(rules, s, CountRows, [column], [test], r)
    requires forall row :: CountsBy(rules, s, column, test, y, row)
    requires forall row :: row in RowOrder(s.document, column.schema) ==> RowOutcome(rules, s, CountRows, [column], [test], row).Ok?
    ensures forall row, failure :: row in Rows(s.document, column.schema) ==> !CellMeans(s, FieldRef(row, column.field), Err(failure))
    ensures Delivers(rules.count(|Standing(s, column, test.operator, y)|), r)
  {
    var rows, chosen := RowOrder(s.document, column.schema), Standing(s, column, test.operator, y);
    forall row ensures row in chosen <==> row in rows && RowMatches(rules, s, [column], [test], row, 0) == Ok(true) {
      assert CountsBy(rules, s, column, test, y, row);
    }
    SelectedCount(rules, s, [column], [test], rows, chosen);
    forall row, failure | row in Rows(s.document, column.schema) ensures !CellMeans(s, FieldRef(row, column.field), Err(failure)) {
      assert CountsBy(rules, s, column, test, y, row) && row in rows;
    }
  }

  lemma SomeRowFails(rules: Rules, s: Snapshot, column: ColumnRef, test: CriterionTest, y: int, r: Result<Number>)
    requires WalkGives(rules, s, CountRows, [column], [test], r)
    requires forall row :: CountsBy(rules, s, column, test, y, row)
    requires exists row :: row in RowOrder(s.document, column.schema) && RowOutcome(rules, s, CountRows, [column], [test], row).Err?
    ensures exists row, failure :: FailsFirst(s, column, row, failure) && r == Err(failure)
  {
    var rows := RowOrder(s.document, column.schema);
    var i: nat, failure :| StopsAt(rules, s, CountRows, [column], [test], rows, i, failure) && r == Err(failure);
    assert CountsBy(rules, s, column, test, y, rows[i]);
    forall other | other in Rows(s.document, column.schema) && other < rows[i]
      ensures exists c :: CellMeans(s, FieldRef(other, column.field), Ok(c))
    {
      assert other in rows;
      var j :| 0 <= j < |rows| && rows[j] == other;
      assert j < i && CountsBy(rules, s, column, test, y, other);
    }
    assert FailsFirst(s, column, rows[i], failure);
  }
}
