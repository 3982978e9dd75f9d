/** The document, schema, entity and formula types the engine computes over. */
module Model {

  datatype Option<+T> = None | Some(value: T)

  datatype Result<+T> = Ok(value: T) | Err(failure: CalculationFailure)

  // The limits of every formula, bound or not.
  const MAX_NODES := 256
  const MAX_DEPTH := 64

  // Stable identities are opaque; only their total order is visible in results.
  type EntityId = nat
  type FieldId = nat
  type SchemaId = nat

  datatype FieldRef = FieldRef(entity: EntityId, field: FieldId)
  datatype ColumnRef = ColumnRef(schema: SchemaId, field: FieldId)

  // A binary64 value. A finite value is named by its position in the total
  // order of the finite values, with positive zero at position 0.
  datatype Float = Finite(rank: int) | NegativeZero | Infinite(negative: bool) | NaN

  // A finite binary64 with one canonical zero.
  datatype Number = Number(rank: int)
  {
    function Get(): Float { Finite(rank) }
  }

  // Number::new: reject what is not finite, keep one zero.
  function NewNumber(f: Float): Option<Number> {
    match f
    case Finite(rank) => Some(Number(rank))
    case NegativeZero => Some(Number(0))
    case _ => None
  }

  // The `==` of binary64: NaN equals nothing and the two zeros are equal.
  predicate FloatEquals(a: Float, b: Float) {
    a != NaN && b != NaN && Canonical(a) == Canonical(b)
  }

  function Canonical(f: Float): Float {
    if f == NegativeZero then Finite(0) else f
  }

  datatype Date = Date(year: nat, month: nat, day: nat)

  // What this model leaves open: binary64 rounding, text folding and the
  // number and date spellings. Every theorem holds for every choice.
  datatype Rules = Rules(
    add: (Float, Float) -> Float,
    subtract: (Float, Float) -> Float,
    multiply: (Float, Float) -> Float,
    divide: (Float, Float) -> Float,
    minimum: (Float, Float) -> Float,
    maximum: (Float, Float) -> Float,
    average: seq<Float> -> Float,
    count: nat -> Float,
    integral: Float -> bool,
    roundDecimal: (Float, nat) -> Float,
    lowercase: char -> string,
    parseNumber: string -> Option<Float>,
    parseDate: string -> Option<Date>,
    numberText: Float -> string,
    dateText: Date -> string
  )

  datatype ColumnAggregateFunction = Average | Count | Minimum | Maximum

  datatype ComparisonOperator = Equal | NotEqual | Less | LessOrEqual | Greater | GreaterOrEqual

  datatype BinaryOperator = Plus | Minus | Times | Over | Smaller | Larger

  datatype Connective = And | Or

  datatype ConditionalAggregate = CountRows | SumOf(column: ColumnRef) | AverageOf(column: ColumnRef)

  datatype ColumnCriterion = ColumnCriterion(
    column: ColumnRef,
    operator: ComparisonOperator,
    operand: Option<Expression>
  )

  datatype Expression =
    | Literal(number: Number)
    | Reference(reference: FieldRef)
    | SameRow(field: FieldId)
    | ColumnTotal(column: ColumnRef)
    | ColumnAggregate(kind: ColumnAggregateFunction, column: ColumnRef)
    | ColumnConditional(aggregate: ConditionalAggregate, criteria: seq<ColumnCriterion>)
    | Binary(binary: BinaryOperator, left: Expression, right: Expression)
    | Compare(operator: ComparisonOperator, left: Expression, right: Expression)
    | If(condition: Expression, thenValue: Expression, elseValue: Expression)
    | Logical(connective: Connective, arguments: seq<Expression>)
    | Not(operand: Expression)
    | Round(operand: Expression, digits: nat)
    | IsBlank(operand: Expression)

  datatype Value =
    | NumberValue(number: Number)
    | TextValue(text: string)
    | BooleanValue(boolean: bool)
    | DateValue(date: Date)
    | ReferenceValue(target: EntityId)
    | FormulaValue(expression: Expression)

  datatype FieldType = NumberType | TextType | BooleanType | DateType | ReferenceType(schema: SchemaId)

  datatype FieldDefinition = FieldDefinition(key: string, fieldType: FieldType, required: bool)

  datatype Schema = Schema(key: string, fields: map<FieldId, FieldDefinition>)

  // An entity is stored under its own id, so the id is the map key.
  datatype Entity = Entity(key: string, schema: SchemaId, fields: map<FieldId, Value>)

  datatype Document = Document(schemas: map<SchemaId, Schema>, entities: map<EntityId, Entity>)

  datatype ReferenceFailure = Missing | NonNumeric

  datatype ColumnFailure = MissingSchema | MissingField | NonNumericColumn

  datatype ComplexityError = NodeLimit | DepthLimit

  datatype CalculationFailure =
    | TypeMismatch
    | InvalidExpression(error: ComplexityError)
    | InvalidReferences(targets: map<FieldRef, ReferenceFailure>)
    | Cycle(members: set<FieldRef>)
    | FailedDependencies(dependencies: set<FieldRef>)
    | DivisionByZero
    | EmptyAggregate
    | NonFiniteResult
    | InvalidColumn(columns: map<ColumnRef, ColumnFailure>)

  type ValueMap = map<FieldRef, Number>
  type FailureMap = map<FieldRef, CalculationFailure>

  // The stored value of one cell, if its row exists and the cell is not blank.
  function Stored(document: Document, cell: FieldRef): Option<Value> {
    if cell.entity in document.entities && cell.field in document.entities[cell.entity].fields
    then Some(document.entities[cell.entity].fields[cell.field])
    else None
  }

  // calculation_value: a stored number or formula.
  function CalculationValue(document: Document, cell: FieldRef): Option<Value> {
    match Stored(document, cell)
    case Some(NumberValue(_)) => Stored(document, cell)
    case Some(FormulaValue(_)) => Stored(document, cell)
    case _ => None
  }

  // Every non-blank cell of the document.
  function Cells(document: Document): set<FieldRef> {
    set e, f | e in document.entities && f in document.entities[e].fields :: FieldRef(e, f)
  }

  // The calculation nodes: cells holding a number or a formula.
  function Nodes(document: Document): set<FieldRef> {
    set c | c in Cells(document) && CalculationValue(document, c).Some?
  }

  predicate IsFormula(document: Document, cell: FieldRef) {
    match Stored(document, cell)
    case Some(FormulaValue(_)) => true
    case _ => false
  }

  function Formulas(document: Document): set<FieldRef> {
    set c | c in Cells(document) && IsFormula(document, c)
  }

  function FormulaAt(document: Document, cell: FieldRef): Expression
    requires IsFormula(document, cell)
  {
    Stored(document, cell).value.expression
  }

  // The rows of one schema.
  function Rows(document: Document, schema: SchemaId): set<EntityId> {
    set e | e in document.entities && document.entities[e].schema == schema
  }

  // The member slots of a column: one cell a row, blank cells included.
  function Slots(document: Document, column: ColumnRef): set<FieldRef> {
    set e | e in Rows(document, column.schema) :: FieldRef(e, column.field)
  }
}
