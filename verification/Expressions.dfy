/** The static reads of a bound formula: cells it names and columns it reads. */
module Expressions {
  import opened Model

  // The operands of the criteria that have one, in order.
  function Operands(criteria: seq<ColumnCriterion>): (r: seq<Expression>)
    ensures forall c :: c in r <==> exists i :: 0 <= i < |criteria| && criteria[i].operand == Some(c)
  {
    if criteria == [] then []
    else
      var rest := Operands(criteria[1..]);
      assert criteria == [criteria[0]] + criteria[1..];
      match criteria[0].operand
      case None => rest
      case Some(c) => [c] + rest
  }

  // Direct children in evaluation order, both IF branches included.
  function Children(e: Expression): (r: seq<Expression>)
    ensures forall c :: c in r ==> c < e
  {
    match e
    case ColumnConditional(_, criteria) => Operands(criteria)
    case Binary(_, left, right) => [left, right]
    case Compare(_, left, right) => [left, right]
    case If(condition, thenValue, elseValue) => [condition, thenValue, elseValue]
    case Logical(_, arguments) => arguments
    case Not(operand) => [operand]
    case Round(operand, _) => [operand]
    case IsBlank(operand) => [operand]
    case _ => []
  }

  predicate IsCellReference(e: Expression) {
    e.Reference? || e.SameRow?
  }

  // The cell a reference node names, seen from the owning formula.
  function Target(owner: FieldRef, e: Expression): FieldRef
    requires IsCellReference(e)
  {
    match e
    case Reference(reference) => reference
    case SameRow(field) => FieldRef(owner.entity, field)
  }

  // Every static reference.
  function DirectReferences(owner: FieldRef, e: Expression): set<FieldRef> {
    if IsCellReference(e) then {Target(owner, e)}
    else set c, r | c in Children(e) && r in DirectReferences(owner, c) :: r
  }

  // Every static reference, marked when it must name a number field: under
  // ISBLANK and as the whole operand of a criterion it need not.
  function ReferenceUses(owner: FieldRef, e: Expression, numeric: bool): set<(FieldRef, bool)> {
    if IsCellReference(e) then {(Target(owner, e), numeric)}
    else set c, u | c in Children(e) && u in ReferenceUses(owner, c, ChildNumeric(e, c, numeric)) :: u
  }

  function ChildNumeric(e: Expression, child: Expression, numeric: bool): bool {
    match e
    case IsBlank(_) => false
    case ColumnConditional(_, _) => !IsCellReference(child)
    case _ => numeric
  }

  // References read on every evaluation: not inside an IF branch, not probed
  // by ISBLANK.
  function UnconditionalReferences(owner: FieldRef, e: Expression): set<FieldRef> {
    if IsCellReference(e) then {Target(owner, e)}
    else if e.IsBlank? then {}
    else if e.If? then UnconditionalReferences(owner, e.condition)
    else set c, r | c in Children(e) && r in UnconditionalReferences(owner, c) :: r
  }

  function ValueColumn(aggregate: ConditionalAggregate): set<ColumnRef> {
    match aggregate
    case CountRows => {}
    case SumOf(column) => {column}
    case AverageOf(column) => {column}
  }

  // The columns one node itself reads.
  function OwnColumns(e: Expression): set<ColumnRef> {
    match e
    case ColumnTotal(column) => {column}
    case ColumnAggregate(_, column) => {column}
    case ColumnConditional(aggregate, criteria) =>
      ValueColumn(aggregate) + set i | 0 <= i < |criteria| :: criteria[i].column
    case _ => {}
  }

  // Every column the expression reads.
  function Columns(e: Expression): set<ColumnRef> {
    OwnColumns(e) + set c, k | c in Children(e) && k in Columns(c) :: k
  }

  // The columns whose cells are read as numbers: a criterion column is not.
  function NumericColumns(e: Expression): set<ColumnRef> {
    (if e.ColumnConditional? then ValueColumn(e.aggregate) else OwnColumns(e))
    + set c, k | c in Children(e) && k in NumericColumns(c) :: k
  }

  // The columns summed whole by a `:total` node.
  function TotalColumns(e: Expression): set<ColumnRef> {
    (if e.ColumnTotal? then {e.column} else {}) + set c, k | c in Children(e) && k in TotalColumns(c) :: k
  }

  datatype ExpressionType = NumberResult | ConditionResult

  // expression_type: None when the expression is ill-typed.
  function TypeOf(e: Expression): Option<ExpressionType> {
    match e
    case ColumnConditional(_, criteria) =>
      if AllHaveType(Operands(criteria), NumberResult, e) then Some(NumberResult) else None
    case Binary(_, left, right) =>
      if TypeOf(left) == Some(NumberResult) && TypeOf(right) == Some(NumberResult) then Some(NumberResult) else None
    case Compare(_, left, right) =>
      if TypeOf(left) == Some(NumberResult) && TypeOf(right) == Some(NumberResult) then Some(ConditionResult) else None
    case If(condition, thenValue, elseValue) =>
      if TypeOf(condition) == Some(ConditionResult) && TypeOf(thenValue) == Some(NumberResult)
         && TypeOf(elseValue) == Some(NumberResult)
      then Some(NumberResult) else None
    case Logical(_, arguments) =>
      if arguments != [] && AllHaveType(arguments, ConditionResult, e) then Some(ConditionResult) else None
    case Not(operand) => if TypeOf(operand) == Some(ConditionResult) then Some(ConditionResult) else None
    case Round(operand, digits) =>
      if digits <= 10 && TypeOf(operand) == Some(NumberResult) then Some(NumberResult) else None
    case IsBlank(operand) => if IsCellReference(operand) then Some(ConditionResult) else None
    case _ => Some(NumberResult)
  }

  predicate AllHaveType(children: seq<Expression>, t: ExpressionType, parent: Expression)
    requires forall c :: c in children ==> c < parent
    decreases parent, 0
  {
    forall c :: c in children ==> TypeOf(c) == Some(t)
  }

  // The depth of every node in pre-order, the root at `depth`.
  function Depths(e: Expression, depth: nat): seq<nat>
    decreases e, 1
  {
    [depth] + ChildDepths(Children(e), depth + 1, e)
  }

  function ChildDepths(children: seq<Expression>, depth: nat, ghost parent: Expression): seq<nat>
    requires forall c :: c in children ==> c < parent
    decreases parent, 0, |children|
  {
    if children == [] then []
    else
      assert children[0] in children;
      assert forall c :: c in children[1..] ==> c in children;
      Depths(children[0], depth) + ChildDepths(children[1..], depth, parent)
  }

  // The first breached limit of a pre-order walk that already met `nodes` nodes.
  function FirstBreach(depths: seq<nat>, nodes: nat): Option<ComplexityError> {
    if depths == [] then None
    else if depths[0] > MAX_DEPTH then Some(DepthLimit)
    else if nodes + 1 > MAX_NODES then Some(NodeLimit)
    else FirstBreach(depths[1..], nodes + 1)
  }

  function StructureError(e: Expression): Option<ComplexityError> {
    FirstBreach(Depths(e, 1), 0)
  }

  lemma {:induction false} WithinLimits(depths: seq<nat>, nodes: nat)
    requires nodes <= MAX_NODES
    ensures FirstBreach(depths, nodes) == None <==>
      nodes + |depths| <= MAX_NODES && forall i :: 0 <= i < |depths| ==> depths[i] <= MAX_DEPTH
  {
    if depths != [] && depths[0] <= MAX_DEPTH && nodes + 1 <= MAX_NODES {
      WithinLimits(depths[1..], nodes + 1);
      assert depths == [depths[0]] + depths[1..];
    }
  }

  // The number of nodes of an expression, and of a list of them.
  ghost function Size(e: Expression): nat {
    |Depths(e, 1)|
  }

  ghost function Sizes(nodes: seq<Expression>): nat {
    if nodes == [] then 0 else Size(nodes[0]) + Sizes(nodes[1..])
  }

  lemma {:induction false} SizeAtAnyDepth(e: Expression, depth: nat)
    ensures |Depths(e, depth)| == Size(e)
    decreases e, 1
  {
    SizesAtAnyDepth(Children(e), depth + 1, e);
    SizesAtAnyDepth(Children(e), 2, e);
  }

  lemma {:induction false} SizesAtAnyDepth(children: seq<Expression>, depth: nat, parent: Expression)
    requires forall c :: c in children ==> c < parent
    ensures |ChildDepths(children, depth, parent)| == Sizes(children)
    decreases parent, 0, |children|
  {
    if children != [] {
      assert children[0] in children && forall c :: c in children[1..] ==> c in children;
      SizeAtAnyDepth(children[0], depth);
      SizesAtAnyDepth(children[1..], depth, parent);
    }
  }

  lemma SizeOfNode(e: Expression)
    ensures Size(e) == 1 + Sizes(Children(e))
  {
    SizesAtAnyDepth(Children(e), 2, e);
  }

  lemma {:induction false} SizesOfConcat(a: seq<Expression>, b: seq<Expression>)
    ensures Sizes(a + b) == Sizes(a) + Sizes(b)
  {
    if a == [] {
      assert a + b == b;
    } else {
      assert (a + b)[1..] == a[1..] + b;
      SizesOfConcat(a[1..], b);
    }
  }
}
