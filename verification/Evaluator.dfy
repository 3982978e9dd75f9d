/**
 What one formula evaluates to: the simple form, which reads every cell afresh
 and walks every row. The pass caches refine it.
 */
module Evaluator {
  import opened Model
  import opened Expressions
  import opened Criteria
  import opened Ordered

  // What an evaluation may look at.
  datatype Snapshot = Snapshot(document: Document, values: ValueMap, failures: FailureMap)

  function Finish(f: Float): Result<Number> {
    match NewNumber(f)
    case Some(number) => Ok(number)
    case None => Err(NonFiniteResult)
  }

  function RowOrder(document: Document, schema: SchemaId): seq<EntityId> {
    Ascending(Rows(document, schema))
  }

  function NonBlank(document: Document, rows: seq<EntityId>, field: FieldId): (cells: seq<FieldRef>)
    ensures forall c :: c in cells ==> c.field == field && c.entity in rows
  {
    if rows == [] then []
    else
      var rest := NonBlank(document, rows[1..], field);
      assert rows == [rows[0]] + rows[1..];
      if Stored(document, FieldRef(rows[0], field)).Some? then [FieldRef(rows[0], field)] + rest else rest
  }

  // The non-blank cells of a column, in entity order.
  function ColumnCells(document: Document, column: ColumnRef): seq<FieldRef> {
    NonBlank(document, RowOrder(document, column.schema), column.field)
  }

  datatype ColumnValues = ColumnValues(
    firstFailed: Option<FieldRef>,
    firstMissing: Option<FieldRef>,
    present: seq<Float>,
    total: Float
  )

  function ReadCells(rules: Rules, s: Snapshot, cells: seq<FieldRef>, read: ColumnValues): ColumnValues {
    if cells == [] then read else ReadCells(rules, s, cells[1..], ReadCell(rules, s, cells[0], read))
  }

  function ReadCell(rules: Rules, s: Snapshot, cell: FieldRef, read: ColumnValues): ColumnValues {
    var failed := if read.firstFailed == None && cell in s.failures then Some(cell) else read.firstFailed;
    if cell in s.values then
      var value := s.values[cell].Get();
      ColumnValues(failed, read.firstMissing, read.present + [value], rules.add(read.total, value))
    else
      ColumnValues(failed, if read.firstMissing == None then Some(cell) else read.firstMissing, read.present, read.total)
  }

  const NothingRead := ColumnValues(None, None, [], Finite(0))

  // A column read in one walk, in entity order.
  function ReadColumn(rules: Rules, s: Snapshot, column: ColumnRef): ColumnValues {
    ReadCells(rules, s, ColumnCells(s.document, column), NothingRead)
  }

  function FoldFloats(f: (Float, Float) -> Float, start: Float, values: seq<Float>): Float
    decreases |values|
  {
    if values == [] then start else FoldFloats(f, f(start, values[0]), values[1..])
  }

  function TotalOf(read: ColumnValues): Result<Number> {
    match read.firstMissing
    case Some(cell) => Err(FailedDependencies({cell}))
    case None => Finish(read.total)
  }

  function AggregateOf(rules: Rules, kind: ColumnAggregateFunction, read: ColumnValues): Result<Number> {
    match read.firstMissing
    case Some(cell) => Err(FailedDependencies({cell}))
    case None =>
      if read.present == [] && kind != Count then Err(EmptyAggregate)
      else match kind
        case Average => Finish(rules.average(read.present))
        case Count => Finish(rules.count(|read.present|))
        case Minimum => Finish(FoldFloats(rules.minimum, Infinite(false), read.present))
        case Maximum => Finish(FoldFloats(rules.maximum, Infinite(true), read.present))
  }

  // A referenced cell's value; an optional blank Number cell reads as zero.
  function ReferenceValueOf(s: Snapshot, reference: FieldRef): Result<Number> {
    if reference in s.values then Ok(s.values[reference])
    else if BlankReadsAsZero(s.document, reference) then Ok(Number(0))
    else Err(FailedDependencies({reference}))
  }

  predicate BlankReadsAsZero(document: Document, reference: FieldRef) {
    && reference.entity in document.entities
    && var entity := document.entities[reference.entity];
    && reference.field !in entity.fields
    && entity.schema in document.schemas
    && reference.field in document.schemas[entity.schema].fields
    && var definition := document.schemas[entity.schema].fields[reference.field];
    && definition.fieldType == NumberType && !definition.required
  }

  function RoundNumber(rules: Rules, number: Number, digits: nat): Result<Number> {
    if digits > 10 then Err(TypeMismatch)
    else if rules.integral(number.Get()) then Finish(number.Get())
    else Finish(rules.roundDecimal(number.Get(), digits))
  }

  function ApplyBinary(rules: Rules, operator: BinaryOperator, left: Number, right: Number): Result<Number> {
    match operator
    case Plus => Finish(rules.add(left.Get(), right.Get()))
    case Minus => Finish(rules.subtract(left.Get(), right.Get()))
    case Times => Finish(rules.multiply(left.Get(), right.Get()))
    case Over => if right == Number(0) then Err(DivisionByZero) else Finish(rules.divide(left.Get(), right.Get()))
    case Smaller => Finish(rules.minimum(left.Get(), right.Get()))
    case Larger => Finish(rules.maximum(left.Get(), right.Get()))
  }

  predicate ApplyCompare(operator: ComparisonOperator, left: Number, right: Number) {
    match operator
    case Equal => left == right
    case NotEqual => left != right
    case Less => left.rank < right.rank
    case LessOrEqual => left.rank <= right.rank
    case Greater => left.rank > right.rank
    case GreaterOrEqual => left.rank >= right.rank
  }

  function NumberOf(rules: Rules, s: Snapshot, owner: FieldRef, e: Expression): Result<Number>
    decreases e, 1
  {
    match e
    case Literal(number) => Ok(number)
    case Reference(reference) => ReferenceValueOf(s, reference)
    case SameRow(field) => ReferenceValueOf(s, FieldRef(owner.entity, field))
    case If(condition, thenValue, elseValue) =>
      (match ConditionOf(rules, s, owner, condition)
       case Err(failure) => Err(failure)
       case Ok(holds) => if holds then NumberOf(rules, s, owner, thenValue) else NumberOf(rules, s, owner, elseValue))
    case ColumnTotal(column) => TotalOf(ReadColumn(rules, s, column))
    case ColumnAggregate(kind, column) => AggregateOf(rules, kind, ReadColumn(rules, s, column))
    case ColumnConditional(aggregate, criteria) =>
      if criteria == [] then Err(TypeMismatch)
      else (match TestsOf(rules, s, owner, criteria, e)
            case Err(failure) => Err(failure)
            case Ok(tests) => ConditionalOf(rules, s, aggregate, CriterionColumns(criteria), tests))
    case Round(operand, digits) =>
      (match NumberOf(rules, s, owner, operand)
       case Err(failure) => Err(failure)
       case Ok(number) => RoundNumber(rules, number, digits))
    case Binary(binary, left, right) =>
      (match NumberOf(rules, s, owner, left)
       case Err(failure) => Err(failure)
       case Ok(l) =>
         match NumberOf(rules, s, owner, right)
         case Err(failure) => Err(failure)
         case Ok(r) => ApplyBinary(rules, binary, l, r))
    case _ => Err(TypeMismatch)
  }

  function ConditionOf(rules: Rules, s: Snapshot, owner: FieldRef, e: Expression): Result<bool>
    decreases e, 1
  {
    match e
    case Compare(operator, left, right) =>
      (match NumberOf(rules, s, owner, left)
       case Err(failure) => Err(failure)
       case Ok(l) =>
         match NumberOf(rules, s, owner, right)
         case Err(failure) => Err(failure)
         case Ok(r) => Ok(ApplyCompare(operator, l, r)))
    case Logical(connective, arguments) => ConditionsOf(rules, s, owner, connective, arguments, connective.And?, e)
    case Not(operand) =>
      (match ConditionOf(rules, s, owner, operand)
       case Err(failure) => Err(failure)
       case Ok(holds) => Ok(!holds))
    case IsBlank(operand) =>
      if IsCellReference(operand) then Ok(CellIsBlank(s.document, Target(owner, operand))) else Err(TypeMismatch)
    case _ => Err(TypeMismatch)
  }

  predicate CellIsBlank(document: Document, cell: FieldRef) {
    cell.entity in document.entities && cell.field !in document.entities[cell.entity].fields
  }

  // AND and OR evaluate every argument, left to right.
  function ConditionsOf(
    rules: Rules, s: Snapshot, owner: FieldRef, connective: Connective, arguments: seq<Expression>, sofar: bool,
    ghost parent: Expression
  ): Result<bool>
    requires forall c :: c in arguments ==> c < parent
    decreases parent, 0, |arguments|
  {
    if arguments == [] then Ok(sofar)
    else
      assert arguments[0] in arguments && forall c :: c in arguments[1..] ==> c in arguments;
      match ConditionOf(rules, s, owner, arguments[0])
      case Err(failure) => Err(failure)
      case Ok(holds) =>
        ConditionsOf(rules, s, owner, connective, arguments[1..],
                     if connective.And? then sofar && holds else sofar || holds, parent)
  }

  function CriterionColumns(criteria: seq<ColumnCriterion>): seq<ColumnRef> {
    seq(|criteria|, i requires 0 <= i < |criteria| => criteria[i].column)
  }

  function TestsOf(rules: Rules, s: Snapshot, owner: FieldRef, criteria: seq<ColumnCriterion>, ghost parent: Expression):
      (r: Result<seq<CriterionTest>>)
    requires forall k :: k in criteria && k.operand.Some? ==> k.operand.value < parent
    ensures r.Ok? ==> |r.value| == |criteria|
    decreases parent, 0, |criteria|
  {
    if criteria == [] then Ok([])
    else
      assert criteria[0] in criteria && forall k :: k in criteria[1..] ==> k in criteria;
      match TestOf(rules, s, owner, criteria[0], parent)
      case Err(failure) => Err(failure)
      case Ok(test) =>
        match TestsOf(rules, s, owner, criteria[1..], parent)
        case Err(failure) => Err(failure)
        case Ok(rest) => Ok([test] + rest)
  }

  function TestOf(rules: Rules, s: Snapshot, owner: FieldRef, criterion: ColumnCriterion, ghost parent: Expression):
      Result<CriterionTest>
    requires criterion.operand.Some? ==> criterion.operand.value < parent
    decreases parent, 0, 0
  {
    match criterion.operand
    case None =>
      if criterion.operator == Equal || criterion.operator == NotEqual then Ok(BlankTest(criterion.operator))
      else Err(TypeMismatch)
    case Some(e) =>
      if criterion.operator == Equal && IsCellReference(e) then ReferenceTest(rules, s, Target(owner, e))
      else if e.Literal? then Ok(NumberTest(rules, criterion.operator, e.number.Get()))
      else if criterion.operator == Equal then
        (match NumberOf(rules, s, owner, e)
         case Err(failure) => Err(failure)
         case Ok(number) => Ok(NumberTest(rules, Equal, number.Get())))
      else Err(TypeMismatch)
  }

  // A criterion that names a cell compares with whatever the cell holds; a
  // blank cell compares as zero.
  function ReferenceTest(rules: Rules, s: Snapshot, reference: FieldRef): Result<CriterionTest> {
    match Stored(s.document, reference)
    case None => Ok(NumberTest(rules, Equal, Finite(0)))
    case Some(TextValue(text)) =>
      (match ParseTest(rules, text) case Some(test) => Ok(test) case None => Err(TypeMismatch))
    case Some(BooleanValue(boolean)) => Ok(BooleanTest(boolean))
    case Some(DateValue(date)) => Ok(DateTest(rules, date))
    case Some(ReferenceValue(_)) => Err(TypeMismatch)
    case Some(_) =>
      if reference in s.values then Ok(NumberTest(rules, Equal, s.values[reference].Get()))
      else Err(FailedDependencies({reference}))
  }

  function CriterionCellOf(s: Snapshot, cell: FieldRef): Result<Option<CriterionCell>> {
    match Stored(s.document, cell)
    case None => Ok(None)
    case Some(TextValue(text)) => Ok(Some(TextCell(text)))
    case Some(BooleanValue(boolean)) => Ok(Some(BooleanCell(boolean)))
    case Some(DateValue(date)) => Ok(Some(DateCell(date)))
    case Some(ReferenceValue(_)) => Err(TypeMismatch)
    case Some(_) =>
      if cell in s.values then Ok(Some(NumberCell(s.values[cell].Get()))) else Err(FailedDependencies({cell}))
  }

  // Whether a row meets every criterion from the k-th on; the first that does
  // not, or that fails, decides.
  function RowMatches(
    rules: Rules, s: Snapshot, columns: seq<ColumnRef>, tests: seq<CriterionTest>, row: EntityId, k: nat
  ): Result<bool>
    requires |columns| == |tests| && k <= |tests|
    decreases |tests| - k
  {
    if k == |tests| then Ok(true)
    else match CriterionCellOf(s, FieldRef(row, columns[k].field))
      case Err(failure) => Err(failure)
      case Ok(cell) =>
        if Matches(rules, tests[k], cell) then RowMatches(rules, s, columns, tests, row, k + 1) else Ok(false)
  }

  // What the aggregate adds for a matched row: nothing for a blank cell.
  function RowValue(s: Snapshot, aggregate: ConditionalAggregate, row: EntityId): Result<seq<Float>> {
    if aggregate.CountRows? then Ok([])
    else
      var cell := FieldRef(row, aggregate.column.field);
      if Stored(s.document, cell).None? then Ok([])
      else if cell in s.values then Ok([s.values[cell].Get()])
      else Err(FailedDependencies({cell}))
  }

  datatype Matched = Matched(rows: nat, values: seq<Float>)

  function WalkRows(
    rules: Rules, s: Snapshot, aggregate: ConditionalAggregate, columns: seq<ColumnRef>, tests: seq<CriterionTest>,
    rows: seq<EntityId>, sofar: Matched
  ): Result<Matched>
    requires |columns| == |tests|
    decreases |rows|
  {
    if rows == [] then Ok(sofar)
    else match WalkRow(rules, s, aggregate, columns, tests, rows[0], sofar)
      case Err(failure) => Err(failure)
      case Ok(next) => WalkRows(rules, s, aggregate, columns, tests, rows[1..], next)
  }

  function WalkRow(
    rules: Rules, s: Snapshot, aggregate: ConditionalAggregate, columns: seq<ColumnRef>, tests: seq<CriterionTest>,
    row: EntityId, sofar: Matched
  ): Result<Matched>
    requires |columns| == |tests|
  {
    match RowMatches(rules, s, columns, tests, row, 0)
    case Err(failure) => Err(failure)
    case Ok(matches) =>
      if !matches then Ok(sofar)
      else match RowValue(s, aggregate, row)
        case Err(failure) => Err(failure)
        case Ok(values) => Ok(Matched(sofar.rows + 1, sofar.values + values))
  }

  function FinishConditional(rules: Rules, aggregate: ConditionalAggregate, walked: Result<Matched>): Result<Number> {
    match walked
    case Err(failure) => Err(failure)
    case Ok(matched) =>
      match aggregate
      case CountRows => Finish(rules.count(matched.rows))
      case SumOf(_) => Finish(FoldFloats(rules.add, Finite(0), matched.values))
      case AverageOf(_) => if matched.values == [] then Err(EmptyAggregate) else Finish(rules.average(matched.values))
  }

  // A conditional aggregate by a walk of every row of its schema.
  function ConditionalOf(
    rules: Rules, s: Snapshot, aggregate: ConditionalAggregate, columns: seq<ColumnRef>, tests: seq<CriterionTest>
  ): Result<Number>
    requires |columns| == |tests| && columns != []
  {
    FinishConditional(rules, aggregate,
                      WalkRows(rules, s, aggregate, columns, tests, RowOrder(s.document, columns[0].schema), Matched(0, [])))
  }

  function FirstFailed(rules: Rules, s: Snapshot, column: ColumnRef): set<FieldRef> {
    match ReadColumn(rules, s, column).firstFailed
    case Some(cell) => {cell}
    case None => {}
  }

  // The failed references an evaluation actually reads: an IF contributes its
  // condition and the branch it selects, a column its first failed cell.
  function FailedRequired(rules: Rules, s: Snapshot, owner: FieldRef, e: Expression): set<FieldRef> {
    if IsCellReference(e) then
      if Target(owner, e) in s.failures then {Target(owner, e)} else {}
    else if e.If? then
      FailedRequired(rules, s, owner, e.condition)
      + match ConditionOf(rules, s, owner, e.condition)
        case Err(_) => {}
        case Ok(holds) => if holds then FailedRequired(rules, s, owner, e.thenValue) else FailedRequired(rules, s, owner, e.elseValue)
    else if e.IsBlank? then {}
    else
      (set k, r | k in OwnColumns(e) && r in FirstFailed(rules, s, k) :: r)
      + set c, r | c in Children(e) && r in FailedRequired(rules, s, owner, c) :: r
  }

  // Evaluate one formula against settled inputs.
  function FormulaOutcome(rules: Rules, s: Snapshot, owner: FieldRef, e: Expression): Result<Number> {
    var failed := FailedRequired(rules, s, owner, e);
    if failed == {} then NumberOf(rules, s, owner, e) else Err(FailedDependencies(failed))
  }
}
