/**
 Projecting a bound formula to text through the current human keys, and the round
 trip: the text parses and binds back to the same formula.
 */
module Projection {
  import opened Model
  import opened Expressions
  import opened UnboundFormulas
  import opened Writings
  import opened WrittenTexts
  import opened FormulaParser
  import opened Binding

  // ---- The projected tree and its text ----

  function AddressOf(document: Document, r: FieldRef): Address {
    if Exists(document, r) then AddressAt(document, r) else Address("", "")
  }

  function ColumnAddressOf(document: Document, k: ColumnRef): Address {
    if ColumnExists(document, k) then ColumnAddressAt(document, k) else Address("", "")
  }

  function UnbindAggregate(document: Document, aggregate: ConditionalAggregate): UnboundAggregate {
    match aggregate
    case CountRows => CountMatches
    case SumOf(k) => SumColumn(ColumnAddressOf(document, k))
    case AverageOf(k) => AverageColumn(ColumnAddressOf(document, k))
  }

  function UnbindInfix(operator: BinaryOperator): InfixOperator
    requires operator != Smaller && operator != Larger
  {
    match operator
    case Plus => Add
    case Minus => Subtract
    case Times => Multiply
    case Over => Divide
  }

  // The formula with human addresses again.
  function Unbind(sp: Spelling, document: Document, owner: FieldRef, e: Expression): Unbound
    decreases e, 1
  {
    match e
    case Literal(number) => NumberLiteral(number)
    case Reference(r) => CellReference(AddressOf(document, r))
    case SameRow(field) => SameRowReference(AddressOf(document, FieldRef(owner.entity, field)).field)
    case ColumnTotal(k) => TotalOf(ColumnAddressOf(document, k))
    case ColumnAggregate(kind, k) => AggregateOf(kind, ColumnAddressOf(document, k))
    case ColumnConditional(aggregate, criteria) =>
      ConditionalOf(UnbindAggregate(document, aggregate), UnbindCriteria(sp, document, owner, criteria, e))
    case Binary(operator, left, right) =>
      var l, r := Unbind(sp, document, owner, left), Unbind(sp, document, owner, right);
      if operator == Smaller || operator == Larger then ExtremeOf(operator == Smaller, l, r)
      else InfixOf(UnbindInfix(operator), l, r)
    case Compare(operator, left, right) =>
      InfixOf(Relation(operator), Unbind(sp, document, owner, left), Unbind(sp, document, owner, right))
    case If(condition, thenValue, elseValue) =>
      IfOf(Unbind(sp, document, owner, condition), Unbind(sp, document, owner, thenValue), Unbind(sp, document, owner, elseValue))
    case Logical(connective, arguments) => LogicalOf(connective, UnbindAll(sp, document, owner, arguments, e))
    case Not(operand) => NotOf(Unbind(sp, document, owner, operand))
    case Round(operand, digits) => RoundOf(Unbind(sp, document, owner, operand), NumberLiteral(sp.integer(digits)))
    case IsBlank(operand) => BlankOf(Unbind(sp, document, owner, operand))
  }

  function UnbindAll(sp: Spelling, document: Document, owner: FieldRef, nodes: seq<Expression>, ghost parent: Expression): (r: seq<Unbound>)
    requires forall c :: c in nodes ==> c < parent
    ensures |r| == |nodes|
    decreases parent, 0, |nodes|
  {
    if nodes == [] then []
    else
      assert nodes[0] in nodes && forall c :: c in nodes[1..] ==> c in nodes;
      [Unbind(sp, document, owner, nodes[0])] + UnbindAll(sp, document, owner, nodes[1..], parent)
  }

  function UnbindCriteria(
    sp: Spelling, document: Document, owner: FieldRef, criteria: seq<ColumnCriterion>, ghost parent: Expression
  ): (r: seq<UnboundCriterion>)
    requires forall k :: k in criteria && k.operand.Some? ==> k.operand.value < parent
    ensures |r| == |criteria|
    decreases parent, 0, |criteria|
  {
    if criteria == [] then []
    else
      assert criteria[0] in criteria && forall k :: k in criteria[1..] ==> k in criteria;
      [UnbindCriterion(sp, document, owner, criteria[0], parent)] + UnbindCriteria(sp, document, owner, criteria[1..], parent)
  }

  function UnbindCriterion(sp: Spelling, document: Document, owner: FieldRef, k: ColumnCriterion, ghost parent: Expression): UnboundCriterion
    requires k.operand.Some? ==> k.operand.value < parent
    decreases parent, 0, 0
  {
    UnboundCriterion(ColumnAddressOf(document, k.column), k.operator,
                     match k.operand case None => None case Some(e) => Some(Unbind(sp, document, owner, e)))
  }

  // ---- What authoring can produce ----

  datatype Role = NumericRole | ScalarRole | BlankRole

  // The reference may stand in this role: a number, a criterion scalar, or a
  // presence test.
  predicate Readable(document: Document, r: FieldRef, role: Role) {
    && Exists(document, r)
    && (role.NumericRole? ==> TypeAt(document, r) == NumberType)
    && (role.ScalarRole? ==> !TypeAt(document, r).ReferenceType?)
  }

  predicate NumericColumn(document: Document, k: ColumnRef) {
    ColumnExists(document, k) && ColumnType(document, k) == NumberType
  }

  predicate ScalarColumn(document: Document, k: ColumnRef) {
    ColumnExists(document, k) && !ColumnType(document, k).ReferenceType?
  }

  predicate AuthoredTest(document: Document, k: ColumnCriterion, schema: SchemaId) {
    && ScalarColumn(document, k.column) && k.column.schema == schema
    && (k.operand.None? ==> k.operator == Equal || k.operator == NotEqual)
    && (k.operand.Some? ==> k.operator == Equal || k.operand.value.Literal?)
  }

  // A bound formula whose references and columns exist with the types their
  // places ask for, and whose conditionals read one schema.
  predicate Authored(document: Document, owner: FieldRef, e: Expression, role: Role) {
    match e
    case Literal(_) => true
    case Reference(_) => Readable(document, Target(owner, e), role)
    case SameRow(_) => Readable(document, Target(owner, e), role)
    case ColumnTotal(k) => NumericColumn(document, k)
    case ColumnAggregate(_, k) => NumericColumn(document, k)
    case ColumnConditional(aggregate, criteria) =>
      && 1 <= |criteria| <= MAX_CRITERIA
      && (forall k :: k in ValueColumn(aggregate) ==> NumericColumn(document, k) && k.schema == criteria[0].column.schema)
      && (forall k :: k in criteria ==> AuthoredTest(document, k, criteria[0].column.schema))
      && forall c :: c in Children(e) ==> Authored(document, owner, c, ScalarRole)
    case Round(operand, digits) => digits <= 10 && Authored(document, owner, operand, NumericRole)
    case IsBlank(operand) => IsCellReference(operand) && Authored(document, owner, operand, BlankRole)
    case Logical(_, arguments) => arguments != [] && forall c :: c in Children(e) ==> Authored(document, owner, c, NumericRole)
    case _ => forall c :: c in Children(e) ==> Authored(document, owner, c, NumericRole)
  }

  function DigitsText(d: nat): string {
    if d < 10 then ['0' + d as char] else "10"
  }

  // The digits of ROUND print as the integer literals they are.
  predicate DigitsSpelled(sp: Spelling) {
    forall d :: 0 <= d <= 10 ==> FormatNumber(sp, sp.integer(d)) == DigitsText(d)
  }

  lemma DigitsDiffer(sp: Spelling, c: nat, d: nat)
    requires DigitsSpelled(sp) && c < d <= 10
    ensures sp.integer(c) != sp.integer(d)
  {
    assert DigitsText(c)[0] == DigitsText(d)[0] ==> c == 1 && d == 10;
    assert FormatNumber(sp, sp.integer(c)) == DigitsText(c) && FormatNumber(sp, sp.integer(d)) == DigitsText(d);
  }

  lemma {:induction false} SmallIntegerFound(sp: Spelling, d: nat, from: nat)
    requires DigitsSpelled(sp) && from <= d <= 10
    ensures SmallInteger(sp, sp.integer(d), from) == Bound(d)
    decreases d - from
  {
    if from < d {
      DigitsDiffer(sp, from, d);
      SmallIntegerFound(sp, d, from + 1);
    }
  }

  lemma {:induction false} SmallIntegerIsSmall(sp: Spelling, n: Number, from: nat)
    ensures SmallInteger(sp, n, from).Bound? ==> SmallInteger(sp, n, from).value <= 10
    decreases 11 - from
  {
    if from <= 10 && sp.integer(from) != n { SmallIntegerIsSmall(sp, n, from + 1); }
  }

  // ---- Binding the projected tree gives the formula back ----

  lemma ReferenceBindsBack(document: Document, index: AddressIndex, r: FieldRef, role: Role)
    requires Indexed(document, index) && Readable(document, r, role)
    ensures ResolveField(document, index, AddressOf(document, r)) == Some(r)
    ensures OwnAddress(document, r, AddressOf(document, r).field) == Some(AddressOf(document, r))
    ensures role.NumericRole? ==> BindNumeric(document, index, AddressOf(document, r)) == Bound(r)
    ensures role.ScalarRole? || role.NumericRole? ==> BindScalar(document, index, AddressOf(document, r)) == Bound(r)
  {
    AddressResolvesBack(document, index, r);
  }

  lemma SameRowBindsBack(document: Document, index: AddressIndex, owner: FieldRef, field: FieldId, role: Role)
    requires Indexed(document, index) && Readable(document, FieldRef(owner.entity, field), role)
    ensures OwnAddress(document, owner, AddressOf(document, FieldRef(owner.entity, field)).field)
         == Some(AddressOf(document, FieldRef(owner.entity, field)))
  {
    ReferenceBindsBack(document, index, FieldRef(owner.entity, field), role);
  }

  lemma ColumnBindsBack(document: Document, index: AddressIndex, k: ColumnRef)
    requires Indexed(document, index) && ScalarColumn(document, k)
    ensures BindCriterionColumn(document, index, ColumnAddressOf(document, k)) == Bound(k)
    ensures NumericColumn(document, k) ==> BindColumn(document, index, ColumnAddressOf(document, k)) == Bound(k)
  {
    ColumnResolvesBack(document, index, k);
  }

  // Binding takes a projected formula back to the formula itself.
  ghost predicate Returns(sp: Spelling, document: Document, index: AddressIndex, owner: FieldRef, e: Expression) {
    BindNode(sp, document, index, owner, Unbind(sp, document, owner, e)) == Bound(e)
  }

  lemma LeafBindsBack(sp: Spelling, document: Document, index: AddressIndex, owner: FieldRef, e: Expression)
    requires Indexed(document, index) && Authored(document, owner, e, NumericRole)
    requires e.Literal? || IsCellReference(e) || e.ColumnTotal? || e.ColumnAggregate?
    ensures Returns(sp, document, index, owner, e)
  {
    match e {
      case Reference(r) => ReferenceBindsBack(document, index, r, NumericRole);
      case SameRow(field) =>
        SameRowBindsBack(document, index, owner, field, NumericRole);
        ReferenceBindsBack(document, index, FieldRef(owner.entity, field), NumericRole);
      case ColumnTotal(k) => ColumnBindsBack(document, index, k);
      case ColumnAggregate(_, k) => ColumnBindsBack(document, index, k);
      case _ =>
    }
  }

  lemma BlankBindsBack(sp: Spelling, document: Document, index: AddressIndex, owner: FieldRef, e: Expression)
    requires Indexed(document, index) && Authored(document, owner, e, NumericRole) && e.IsBlank?
    ensures Returns(sp, document, index, owner, e)
  {
    ReferenceBindsBack(document, index, Target(owner, e.operand), BlankRole);
    if e.operand.SameRow? { SameRowBindsBack(document, index, owner, e.operand.field, BlankRole); }
  }

  lemma BinaryBindsBack(sp: Spelling, document: Document, index: AddressIndex, owner: FieldRef, e: Expression)
    requires e.Binary? || e.Compare?
    requires Returns(sp, document, index, owner, e.left) && Returns(sp, document, index, owner, e.right)
    ensures Returns(sp, document, index, owner, e)
  {
  }

  lemma RoundBindsBack(sp: Spelling, document: Document, index: AddressIndex, owner: FieldRef, e: Expression)
    requires e.Round? && DigitsSpelled(sp) && e.digits <= 10 && Returns(sp, document, index, owner, e.operand)
    ensures Returns(sp, document, index, owner, e)
  {
    SmallIntegerFound(sp, e.digits, 0);
  }

  lemma {:induction false} BindsBack(sp: Spelling, document: Document, index: AddressIndex, owner: FieldRef, e: Expression)
    requires Indexed(document, index) && DigitsSpelled(sp) && Authored(document, owner, e, NumericRole)
    ensures Returns(sp, document, index, owner, e)
    decreases e, 1
  {
    match e {
      case ColumnConditional(_, _) => ConditionalBindsBack(sp, document, index, owner, e);
      case Logical(_, arguments) =>
        AllBindBack(sp, document, index, owner, arguments, e, Unbind(sp, document, owner, e));
      case Round(operand, _) =>
        BindsBack(sp, document, index, owner, operand);
        RoundBindsBack(sp, document, index, owner, e);
      case IsBlank(_) => BlankBindsBack(sp, document, index, owner, e);
      case Binary(_, left, right) => PairBindsBack(sp, document, index, owner, e, left, right);
      case Compare(_, left, right) => PairBindsBack(sp, document, index, owner, e, left, right);
      case If(condition, thenValue, elseValue) =>
        assert Children(e) == [condition, thenValue, elseValue];
        assert condition in Children(e) && thenValue in Children(e) && elseValue in Children(e);
        BindsBack(sp, document, index, owner, condition);
        BindsBack(sp, document, index, owner, thenValue);
        BindsBack(sp, document, index, owner, elseValue);
      case Not(operand) =>
        assert operand in Children(e);
        BindsBack(sp, document, index, owner, operand);
      case _ => LeafBindsBack(sp, document, index, owner, e);
    }
  }

  lemma {:induction false} PairBindsBack(
    sp: Spelling, document: Document, index: AddressIndex, owner: FieldRef, e: Expression, left: Expression, right: Expression
  )
    requires Indexed(document, index) && DigitsSpelled(sp) && Authored(document, owner, e, NumericRole)
    requires (e.Binary? || e.Compare?) && e.left == left && e.right == right
    ensures Returns(sp, document, index, owner, e)
    decreases e, 0
  {
    assert Children(e) == [left, right];
    assert left in Children(e) && right in Children(e);
    BindsBack(sp, document, index, owner, left);
    BindsBack(sp, document, index, owner, right);
    BinaryBindsBack(sp, document, index, owner, e);
  }

  lemma {:induction false} AllBindBack(
    sp: Spelling, document: Document, index: AddressIndex, owner: FieldRef, nodes: seq<Expression>, parent: Expression, up: Unbound
  )
    requires Indexed(document, index) && DigitsSpelled(sp)
    requires forall c :: c in nodes ==> c < parent && Authored(document, owner, c, NumericRole)
    requires forall c :: c in UnbindAll(sp, document, owner, nodes, parent) ==> c < up
    ensures BindAll(sp, document, index, owner, UnbindAll(sp, document, owner, nodes, parent), up) == Bound(nodes)
    decreases parent, 0, |nodes|
  {
    if nodes != [] {
      var unbound := UnbindAll(sp, document, owner, nodes, parent);
      assert nodes[0] in nodes && forall c :: c in nodes[1..] ==> c in nodes;
      assert unbound[0] in unbound && unbound[1..] == UnbindAll(sp, document, owner, nodes[1..], parent);
      assert forall c :: c in unbound[1..] ==> c in unbound;
      BindsBack(sp, document, index, owner, nodes[0]);
      assert Returns(sp, document, index, owner, nodes[0]);
      AllBindBack(sp, document, index, owner, nodes[1..], parent, up);
      assert [nodes[0]] + nodes[1..] == nodes;
    }
  }

  lemma {:induction false} OperandBindsBack(sp: Spelling, document: Document, index: AddressIndex, owner: FieldRef, e: Expression)
    requires Indexed(document, index) && DigitsSpelled(sp) && Authored(document, owner, e, ScalarRole)
    ensures BindOperand(sp, document, index, owner, Unbind(sp, document, owner, e)) == Bound(e)
    decreases e, 2
  {
    if IsCellReference(e) {
      ReferenceBindsBack(document, index, Target(owner, e), ScalarRole);
      if e.SameRow? { SameRowBindsBack(document, index, owner, e.field, ScalarRole); }
    } else {
      BindsBack(sp, document, index, owner, e);
    }
  }

  lemma {:induction false} ConditionalBindsBack(sp: Spelling, document: Document, index: AddressIndex, owner: FieldRef, e: Expression)
    requires Indexed(document, index) && DigitsSpelled(sp) && e.ColumnConditional? && Authored(document, owner, e, NumericRole)
    ensures Returns(sp, document, index, owner, e)
    decreases e, 0
  {
    var u := Unbind(sp, document, owner, e);
    var schema := e.criteria[0].column.schema;
    forall k | k in e.criteria ensures AuthoredCriterion(document, owner, k, schema, e) {
      var i :| 0 <= i < |e.criteria| && e.criteria[i] == k;
      assert k.operand.Some? ==> k.operand.value in Children(e);
    }
    CriteriaBindBack(sp, document, index, owner, e.criteria, e, schema, None, u);
    if !e.aggregate.CountRows? {
      assert e.aggregate.column in ValueColumn(e.aggregate);
      ColumnBindsBack(document, index, e.aggregate.column);
    }
  }

  ghost predicate AuthoredCriterion(document: Document, owner: FieldRef, k: ColumnCriterion, schema: SchemaId, parent: Expression) {
    && AuthoredTest(document, k, schema)
    && (k.operand.Some? ==> k.operand.value < parent && Authored(document, owner, k.operand.value, ScalarRole))
  }

  lemma UnbindCriteriaStep(sp: Spelling, document: Document, owner: FieldRef, criteria: seq<ColumnCriterion>, parent: Expression)
    requires criteria != [] && forall k :: k in criteria && k.operand.Some? ==> k.operand.value < parent
    ensures criteria[0] in criteria && forall k :: k in criteria[1..] ==> k in criteria
    ensures var unbound := UnbindCriteria(sp, document, owner, criteria, parent);
      && unbound[0] == UnbindCriterion(sp, document, owner, criteria[0], parent) && unbound[0] in unbound
      && unbound[1..] == UnbindCriteria(sp, document, owner, criteria[1..], parent)
      && forall l :: l in unbound[1..] ==> l in unbound
  {
    var unbound := UnbindCriteria(sp, document, owner, criteria, parent);
    assert forall k :: k in criteria[1..] ==> k in criteria;
    assert unbound == [UnbindCriterion(sp, document, owner, criteria[0], parent)]
                      + UnbindCriteria(sp, document, owner, criteria[1..], parent);
  }

  lemma {:induction false} CriteriaBindBack(
    sp: Spelling, document: Document, index: AddressIndex, owner: FieldRef, criteria: seq<ColumnCriterion>, parent: Expression,
    schema: SchemaId, known: Option<SchemaId>, up: Unbound
  )
    requires Indexed(document, index) && DigitsSpelled(sp) && (known == None || known == Some(schema))
    requires forall k :: k in criteria && k.operand.Some? ==> k.operand.value < parent
    requires forall k :: k in criteria ==> AuthoredCriterion(document, owner, k, schema, parent)
    requires forall k :: k in UnbindCriteria(sp, document, owner, criteria, parent) && k.operand.Some? ==> k.operand.value < up
    ensures BindCriteria(sp, document, index, owner, UnbindCriteria(sp, document, owner, criteria, parent), known, up) == Bound(criteria)
    decreases parent, 0, |criteria|
  {
    if criteria != [] {
      var unbound := UnbindCriteria(sp, document, owner, criteria, parent);
      UnbindCriteriaStep(sp, document, owner, criteria, parent);
      CriterionBindsBack(sp, document, index, owner, criteria[0], parent, schema, up);
      CriteriaBindBack(sp, document, index, owner, criteria[1..], parent, schema, Some(schema), up);
      BindCriteriaStep(sp, document, index, owner, unbound, known, up, criteria[0], criteria[1..]);
      assert [criteria[0]] + criteria[1..] == criteria;
    }
  }

  lemma BindCriteriaStep(
    sp: Spelling, document: Document, index: AddressIndex, owner: FieldRef, criteria: seq<UnboundCriterion>,
    known: Option<SchemaId>, up: Unbound, first: ColumnCriterion, rest: seq<ColumnCriterion>
  )
    requires forall k :: k in criteria && k.operand.Some? ==> k.operand.value < up
    requires criteria != [] && criteria[0] in criteria && (forall k :: k in criteria[1..] ==> k in criteria)
    requires BindCriterionColumn(document, index, criteria[0].column) == Bound(first.column) && criteria[0].operator == first.operator
    requires known == None || known == Some(first.column.schema)
    requires BindTestOperand(sp, document, index, owner, criteria[0].operand, up) == Bound(first.operand)
    requires BindCriteria(sp, document, index, owner, criteria[1..], Some(first.column.schema), up) == Bound(rest)
    ensures BindCriteria(sp, document, index, owner, criteria, known, up) == Bound([first] + rest)
  {
  }

  lemma {:induction false} CriterionBindsBack(
    sp: Spelling, document: Document, index: AddressIndex, owner: FieldRef, k: ColumnCriterion, parent: Expression,
    schema: SchemaId, up: Unbound
  )
    requires Indexed(document, index) && DigitsSpelled(sp) && AuthoredCriterion(document, owner, k, schema, parent)
    requires var u := UnbindCriterion(sp, document, owner, k, parent); u.operand.Some? ==> u.operand.value < up
    ensures var u := UnbindCriterion(sp, document, owner, k, parent);
      && BindCriterionColumn(document, index, u.column) == Bound(k.column) && u.operator == k.operator
      && BindTestOperand(sp, document, index, owner, u.operand, up) == Bound(k.operand)
    decreases parent, 0, 0
  {
    ColumnBindsBack(document, index, k.column);
    if k.operand.Some? { OperandBindsBack(sp, document, index, owner, k.operand.value); }
  }

  // ---- The projected tree is well formed and within the same limits ----

  // Validated documents: every key is an identifier, so every formula that was
  // authored in one names identifiers.
  predicate IdentifierKeys(document: Document) {
    && (forall e :: e in document.entities ==> IsIdentifier(document.entities[e].key))
    && (forall s :: s in document.schemas ==> IsIdentifier(document.schemas[s].key))
    && (forall s, f :: s in document.schemas && f in document.schemas[s].fields ==>
          IsIdentifier(document.schemas[s].fields[f].key))
  }

  lemma {:induction false} UnbindIsWellFormed(sp: Spelling, document: Document, owner: FieldRef, e: Expression, role: Role)
    requires IdentifierKeys(document) && Authored(document, owner, e, role)
    ensures WellFormed(Unbind(sp, document, owner, e))
    decreases e, 1
  {
    match e {
      case ColumnConditional(_, _) => ConditionalIsWellFormed(sp, document, owner, e);
      case Logical(_, arguments) =>
        AllAreWellFormed(sp, document, owner, arguments, e);
      case Binary(_, left, right) => PairIsWellFormed(sp, document, owner, e, left, right);
      case Compare(_, left, right) => PairIsWellFormed(sp, document, owner, e, left, right);
      case If(_, _, _) => IfIsWellFormed(sp, document, owner, e);
      case Not(operand) =>
        assert operand in Children(e);
        UnbindIsWellFormed(sp, document, owner, operand, NumericRole);
      case Round(operand, digits) =>
        UnbindIsWellFormed(sp, document, owner, operand, NumericRole);
        assert WellFormed(NumberLiteral(sp.integer(digits)));
      case IsBlank(operand) => UnbindIsWellFormed(sp, document, owner, operand, BlankRole);
      case _ => LeafIsWellFormed(sp, document, owner, e, role);
    }
  }

  predicate IsLeaf(e: Expression) {
    e.Literal? || IsCellReference(e) || e.ColumnTotal? || e.ColumnAggregate?
  }

  lemma LeafIsWellFormed(sp: Spelling, document: Document, owner: FieldRef, e: Expression, role: Role)
    requires IdentifierKeys(document) && Authored(document, owner, e, role) && IsLeaf(e)
    ensures WellFormed(Unbind(sp, document, owner, e))
  {
  }

  lemma {:induction false} IfIsWellFormed(sp: Spelling, document: Document, owner: FieldRef, e: Expression)
    requires IdentifierKeys(document) && Authored(document, owner, e, NumericRole) && e.If?
    ensures WellFormed(Unbind(sp, document, owner, e))
    decreases e, 0
  {
    assert Children(e) == [e.condition, e.thenValue, e.elseValue];
    assert e.condition in Children(e) && e.thenValue in Children(e) && e.elseValue in Children(e);
    UnbindIsWellFormed(sp, document, owner, e.condition, NumericRole);
    UnbindIsWellFormed(sp, document, owner, e.thenValue, NumericRole);
    UnbindIsWellFormed(sp, document, owner, e.elseValue, NumericRole);
  }

  lemma {:induction false} PairIsWellFormed(
    sp: Spelling, document: Document, owner: FieldRef, e: Expression, left: Expression, right: Expression
  )
    requires IdentifierKeys(document) && Authored(document, owner, e, NumericRole)
    requires (e.Binary? || e.Compare?) && e.left == left && e.right == right
    ensures WellFormed(Unbind(sp, document, owner, e))
    decreases e, 0
  {
    assert Children(e) == [left, right];
    assert left in Children(e) && right in Children(e);
    UnbindIsWellFormed(sp, document, owner, left, NumericRole);
    UnbindIsWellFormed(sp, document, owner, right, NumericRole);
  }

  lemma {:induction false} AllAreWellFormed(sp: Spelling, document: Document, owner: FieldRef, nodes: seq<Expression>, parent: Expression)
    requires IdentifierKeys(document)
    requires forall c :: c in nodes ==> c < parent && Authored(document, owner, c, NumericRole)
    ensures forall c :: c in UnbindAll(sp, document, owner, nodes, parent) ==> WellFormed(c)
    decreases parent, 0, |nodes|
  {
    if nodes != [] {
      assert nodes[0] in nodes && forall c :: c in nodes[1..] ==> c in nodes;
      UnbindIsWellFormed(sp, document, owner, nodes[0], NumericRole);
      AllAreWellFormed(sp, document, owner, nodes[1..], parent);
    }
  }

  lemma {:induction false} ConditionalIsWellFormed(sp: Spelling, document: Document, owner: FieldRef, e: Expression)
    requires IdentifierKeys(document) && e.ColumnConditional? && Authored(document, owner, e, NumericRole)
    ensures WellFormed(Unbind(sp, document, owner, e))
    decreases e, 0
  {
    forall k | k in e.criteria ensures AuthoredCriterion(document, owner, k, e.criteria[0].column.schema, e) {
      var i :| 0 <= i < |e.criteria| && e.criteria[i] == k;
      assert k.operand.Some? ==> k.operand.value in Children(e);
    }
    CriteriaAreSound(sp, document, owner, e.criteria, e, e.criteria[0].column.schema);
    if !e.aggregate.CountRows? { assert e.aggregate.column in ValueColumn(e.aggregate); }
    SoundConditional(Unbind(sp, document, owner, e));
  }

  lemma {:induction false} CriteriaAreSound(
    sp: Spelling, document: Document, owner: FieldRef, criteria: seq<ColumnCriterion>, parent: Expression, schema: SchemaId
  )
    requires IdentifierKeys(document)
    requires forall k :: k in criteria && k.operand.Some? ==> k.operand.value < parent
    requires forall k :: k in criteria ==> AuthoredCriterion(document, owner, k, schema, parent)
    ensures forall k :: k in UnbindCriteria(sp, document, owner, criteria, parent) ==> SoundCriterion(k)
    decreases parent, 0, |criteria|
  {
    if criteria != [] {
      UnbindCriteriaStep(sp, document, owner, criteria, parent);
      if criteria[0].operand.Some? { UnbindIsWellFormed(sp, document, owner, criteria[0].operand.value, ScalarRole); }
      CriteriaAreSound(sp, document, owner, criteria[1..], parent, schema);
      var unbound := UnbindCriteria(sp, document, owner, criteria, parent);
      assert unbound == [unbound[0]] + unbound[1..];
    }
  }

  // Every depth of a walk is within the limit.
  ghost predicate Shallow(depths: seq<nat>) {
    forall i :: 0 <= i < |depths| ==> depths[i] <= MAX_DEPTH
  }

  lemma ShallowParts(a: seq<nat>, b: seq<nat>)
    requires Shallow(a + b)
    ensures Shallow(a) && Shallow(b)
  {
    forall i | 0 <= i < |a| ensures a[i] <= MAX_DEPTH { assert (a + b)[i] == a[i]; }
    forall i | 0 <= i < |b| ensures b[i] <= MAX_DEPTH { assert (a + b)[|a| + i] == b[i]; }
  }

  // The children of the projected tree are the projected children, and for
  // ROUND the digits besides.
  ghost predicate ProjectsChildren(sp: Spelling, document: Document, owner: FieldRef, e: Expression) {
    SubFormulas(Unbind(sp, document, owner, e))
    == UnbindAll(sp, document, owner, Children(e), e) + if e.Round? then [NumberLiteral(sp.integer(e.digits))] else []
  }

  lemma ProjectedChildren(sp: Spelling, document: Document, owner: FieldRef, e: Expression)
    ensures ProjectsChildren(sp, document, owner, e)
  {
    match e {
      case ColumnConditional(_, criteria) => ProjectedOperands(sp, document, owner, criteria, e, e);
      case Binary(_, left, right) => TwoUnbound(sp, document, owner, left, right, e);
      case Compare(_, left, right) => TwoUnbound(sp, document, owner, left, right, e);
      case If(condition, thenValue, elseValue) => ThreeUnbound(sp, document, owner, condition, thenValue, elseValue, e);
      case Not(operand) => OneProjectedChild(sp, document, owner, e, operand);
      case Round(operand, _) => OneProjectedChild(sp, document, owner, e, operand);
      case IsBlank(operand) => OneProjectedChild(sp, document, owner, e, operand);
      case _ =>
    }
  }

  lemma OneProjectedChild(sp: Spelling, document: Document, owner: FieldRef, e: Expression, operand: Expression)
    requires (e.Not? || e.Round? || e.IsBlank?) && operand == e.operand
    ensures ProjectsChildren(sp, document, owner, e)
  {
    OneUnbound(sp, document, owner, operand, e);
    assert Children(e) == [operand];
  }

  lemma OneUnbound(sp: Spelling, document: Document, owner: FieldRef, c: Expression, parent: Expression)
    requires c < parent
    ensures UnbindAll(sp, document, owner, [c], parent) == [Unbind(sp, document, owner, c)]
  {
    assert [c][1..] == [];
  }

  lemma TwoUnbound(sp: Spelling, document: Document, owner: FieldRef, a: Expression, b: Expression, parent: Expression)
    requires a < parent && b < parent
    ensures UnbindAll(sp, document, owner, [a, b], parent) == [Unbind(sp, document, owner, a), Unbind(sp, document, owner, b)]
  {
    assert [a, b][1..] == [b];
    OneUnbound(sp, document, owner, b, parent);
  }

  lemma ThreeUnbound(
    sp: Spelling, document: Document, owner: FieldRef, a: Expression, b: Expression, c: Expression, parent: Expression
  )
    requires a < parent && b < parent && c < parent
    ensures UnbindAll(sp, document, owner, [a, b, c], parent)
         == [Unbind(sp, document, owner, a), Unbind(sp, document, owner, b), Unbind(sp, document, owner, c)]
  {
    assert [a, b, c][1..] == [b, c];
    TwoUnbound(sp, document, owner, b, c, parent);
  }

  lemma {:induction false} ProjectedOperands(
    sp: Spelling, document: Document, owner: FieldRef, criteria: seq<ColumnCriterion>, parent: Expression, up: Expression
  )
    requires forall k :: k in criteria && k.operand.Some? ==> k.operand.value < parent
    requires forall c :: c in Operands(criteria) ==> c < up
    ensures OperandsOf(UnbindCriteria(sp, document, owner, criteria, parent)) == UnbindAll(sp, document, owner, Operands(criteria), up)
  {
    if criteria != [] {
      UnbindCriteriaStep(sp, document, owner, criteria, parent);
      if criteria[0].operand.Some? {
        assert Operands(criteria) == [criteria[0].operand.value] + Operands(criteria[1..]);
        assert Operands(criteria)[1..] == Operands(criteria[1..]);
      }
      ProjectedOperands(sp, document, owner, criteria[1..], parent, up);
    }
  }

  // The projected tree is no deeper than the formula.
  lemma {:induction false} ProjectedDepth(sp: Spelling, document: Document, owner: FieldRef, e: Expression, depth: nat)
    requires 1 <= depth && Shallow(Depths(e, depth))
    ensures depth - 1 + Depth(Unbind(sp, document, owner, e)) <= MAX_DEPTH
    decreases e, 1
  {
    var u := Unbind(sp, document, owner, e);
    ShallowParts([depth], ChildDepths(Children(e), depth + 1, e));
    assert depth == [depth][0];
    ProjectedChildren(sp, document, owner, e);
    var children := UnbindAll(sp, document, owner, Children(e), e);
    forall c | c in children ensures c < u { assert c in SubFormulas(u); }
    ProjectedDepths(sp, document, owner, Children(e), e, depth + 1, u);
    if e.Round? {
      var digits := NumberLiteral(sp.integer(e.digits));
      assert SubFormulas(digits) == [] && Depth(digits) == 1;
      DeepestOfAppend(children, digits, u);
      assert Children(e) != [];
    } else {
      assert SubFormulas(u) == children;
    }
  }

  lemma {:induction false} ProjectedDepths(
    sp: Spelling, document: Document, owner: FieldRef, nodes: seq<Expression>, parent: Expression, depth: nat, up: Unbound
  )
    requires 1 <= depth && (forall c :: c in nodes ==> c < parent) && Shallow(ChildDepths(nodes, depth, parent))
    requires forall c :: c in UnbindAll(sp, document, owner, nodes, parent) ==> c < up
    ensures nodes != [] ==> depth - 1 + MaxDepth(UnbindAll(sp, document, owner, nodes, parent), up) <= MAX_DEPTH
    ensures nodes != [] ==> MaxDepth(UnbindAll(sp, document, owner, nodes, parent), up) >= 1
    decreases parent, 0, |nodes|
  {
    if nodes != [] {
      assert nodes[0] in nodes && forall c :: c in nodes[1..] ==> c in nodes;
      ShallowParts(Depths(nodes[0], depth), ChildDepths(nodes[1..], depth, parent));
      ProjectedDepth(sp, document, owner, nodes[0], depth);
      var unbound := UnbindAll(sp, document, owner, nodes, parent);
      assert unbound[1..] == UnbindAll(sp, document, owner, nodes[1..], parent);
      assert forall c :: c in unbound[1..] ==> c in unbound;
      ProjectedDepths(sp, document, owner, nodes[1..], parent, depth, up);
    }
  }

  lemma {:induction false} DeepestOfAppend(nodes: seq<Unbound>, last: Unbound, up: Unbound)
    requires forall c :: c in nodes + [last] ==> c < up
    ensures forall c :: c in nodes ==> c < up
    ensures MaxDepth(nodes + [last], up) == Max(MaxDepth(nodes, up), Depth(last))
  {
    assert forall c :: c in nodes ==> c in nodes + [last];
    if nodes == [] {
      assert nodes + [last] == [last] && [last][1..] == [];
    } else {
      assert (nodes + [last])[1..] == nodes[1..] + [last];
      assert forall c :: c in nodes[1..] + [last] ==> c in nodes + [last];
      DeepestOfAppend(nodes[1..], last, up);
    }
  }

  // ---- Rendering ----

  function RenderColumn(a: Address): string {
    "[" + a.owner + "." + a.field + ":column]"
  }

  function RenderInfix(left: string, operator: string, right: string): string {
    "(" + left + " " + operator + " " + right + ")"
  }

  function BinaryText(operator: BinaryOperator): string {
    match operator
    case Plus => "+"
    case Minus => "-"
    case Times => "*"
    case Over => "/"
    case Smaller => "min"
    case Larger => "max"
  }

  // render_bound.
  function RenderBound(sp: Spelling, document: Document, owner: FieldRef, e: Expression): string
    decreases e, 1
  {
    match e
    case Literal(number) => FormatNumber(sp, number)
    case Reference(r) => var a := AddressOf(document, r); "[" + a.owner + "." + a.field + "]"
    case SameRow(field) => "[." + AddressOf(document, FieldRef(owner.entity, field)).field + "]"
    case ColumnTotal(k) => var a := ColumnAddressOf(document, k); "[" + a.owner + "." + a.field + ":total]"
    case ColumnAggregate(kind, k) =>
      var a := ColumnAddressOf(document, k);
      "[" + a.owner + "." + a.field + ":" + Suffix(kind) + "]"
    case ColumnConditional(aggregate, criteria) =>
      RenderName(aggregate) + "("
      + Join(RenderValues(document, aggregate) + RenderCriteria(sp, document, owner, criteria, e)) + ")"
    case Binary(operator, left, right) =>
      var l, r := RenderBound(sp, document, owner, left), RenderBound(sp, document, owner, right);
      if operator == Smaller || operator == Larger then BinaryText(operator) + "(" + l + ", " + r + ")"
      else RenderInfix(l, BinaryText(operator), r)
    case Compare(operator, left, right) =>
      RenderInfix(RenderBound(sp, document, owner, left), ComparisonText(operator), RenderBound(sp, document, owner, right))
    case If(condition, thenValue, elseValue) =>
      "IF(" + RenderBound(sp, document, owner, condition) + ", " + RenderBound(sp, document, owner, thenValue) + ", "
      + RenderBound(sp, document, owner, elseValue) + ")"
    case Logical(connective, arguments) =>
      (if connective.And? then "AND" else "OR") + "(" + Join(RenderAll(sp, document, owner, arguments, e)) + ")"
    case Not(operand) => "NOT(" + RenderBound(sp, document, owner, operand) + ")"
    case Round(operand, digits) => "ROUND(" + RenderBound(sp, document, owner, operand) + ", " + DigitsText(digits) + ")"
    case IsBlank(operand) => "ISBLANK(" + RenderBound(sp, document, owner, operand) + ")"
  }

  function RenderName(aggregate: ConditionalAggregate): string {
    match aggregate
    case SumOf(_) => "SUMIFS"
    case AverageOf(_) => "AVERAGEIFS"
    case CountRows => "COUNTIFS"
  }

  function RenderValues(document: Document, aggregate: ConditionalAggregate): seq<string> {
    match aggregate
    case SumOf(k) => [RenderColumn(ColumnAddressOf(document, k))]
    case AverageOf(k) => [RenderColumn(ColumnAddressOf(document, k))]
    case CountRows => []
  }

  function RenderAll(sp: Spelling, document: Document, owner: FieldRef, nodes: seq<Expression>, ghost parent: Expression): seq<string>
    requires forall c :: c in nodes ==> c < parent
    decreases parent, 0, |nodes|
  {
    if nodes == [] then []
    else
      assert nodes[0] in nodes && forall c :: c in nodes[1..] ==> c in nodes;
      [RenderBound(sp, document, owner, nodes[0])] + RenderAll(sp, document, owner, nodes[1..], parent)
  }

  function RenderCriteria(
    sp: Spelling, document: Document, owner: FieldRef, criteria: seq<ColumnCriterion>, ghost parent: Expression
  ): seq<string>
    requires forall k :: k in criteria && k.operand.Some? ==> k.operand.value < parent
    decreases parent, 0, |criteria|
  {
    if criteria == [] then []
    else
      assert criteria[0] in criteria && forall k :: k in criteria[1..] ==> k in criteria;
      [RenderColumn(ColumnAddressOf(document, criteria[0].column)), RenderCriterion(sp, document, owner, criteria[0], parent)]
      + RenderCriteria(sp, document, owner, criteria[1..], parent)
  }

  // render_criterion.
  function RenderCriterion(sp: Spelling, document: Document, owner: FieldRef, k: ColumnCriterion, ghost parent: Expression): string
    requires k.operand.Some? ==> k.operand.value < parent
    decreases parent, 0, 0
  {
    match k.operand
    case None => if k.operator == Equal then "\"\"" else "\"<>\""
    case Some(e) =>
      if k.operator == Equal then RenderBound(sp, document, owner, e)
      else if e.Literal? then "\"" + ComparisonText(k.operator) + FormatNumber(sp, e.number) + "\""
      else RenderBound(sp, document, owner, e)
  }

  // The two printers agree: rendering a bound formula is the canonical print of
  // its projected tree.
  ghost predicate RendersAlike(sp: Spelling, document: Document, owner: FieldRef, e: Expression) {
    RenderBound(sp, document, owner, e) == Format(sp, Unbind(sp, document, owner, e))
  }

  predicate SmallDigits(e: Expression) {
    (e.Round? ==> e.digits <= 10) && forall c :: c in Children(e) ==> SmallDigits(c)
  }

  lemma {:induction false} RendersCanonically(sp: Spelling, document: Document, owner: FieldRef, e: Expression)
    requires DigitsSpelled(sp) && SmallDigits(e)
    ensures RendersAlike(sp, document, owner, e)
    decreases e, 1
  {
    match e {
      case ColumnConditional(_, _) => ConditionalRenders(sp, document, owner, e);
      case Binary(_, left, right) =>
        assert Children(e) == [left, right];
        assert left in Children(e) && right in Children(e);
        RendersCanonically(sp, document, owner, left);
        RendersCanonically(sp, document, owner, right);
        BinaryRenders(sp, document, owner, e);
      case Compare(_, left, right) =>
        assert Children(e) == [left, right];
        assert left in Children(e) && right in Children(e);
        RendersCanonically(sp, document, owner, left);
        RendersCanonically(sp, document, owner, right);
        CompareRenders(sp, document, owner, e);
      case If(condition, thenValue, elseValue) =>
        assert Children(e) == [condition, thenValue, elseValue];
        assert condition in Children(e) && thenValue in Children(e) && elseValue in Children(e);
        RendersCanonically(sp, document, owner, condition);
        RendersCanonically(sp, document, owner, thenValue);
        RendersCanonically(sp, document, owner, elseValue);
        IfRenders(sp, document, owner, e);
      case Logical(_, arguments) =>
        var u := Unbind(sp, document, owner, e);
        AllRender(sp, document, owner, arguments, e, u);
      case Not(operand) =>
        assert operand in Children(e);
        RendersCanonically(sp, document, owner, operand);
        OneOperandRenders(sp, document, owner, e, operand);
      case IsBlank(operand) =>
        assert operand in Children(e);
        RendersCanonically(sp, document, owner, operand);
        OneOperandRenders(sp, document, owner, e, operand);
      case Round(operand, digits) =>
        assert operand in Children(e);
        RendersCanonically(sp, document, owner, operand);
        RoundRenders(sp, document, owner, e);
      case _ => LeafRenders(sp, document, owner, e);
    }
  }

  lemma LeafRenders(sp: Spelling, document: Document, owner: FieldRef, e: Expression)
    requires e.Literal? || IsCellReference(e) || e.ColumnTotal? || e.ColumnAggregate?
    ensures RendersAlike(sp, document, owner, e)
  {
  }

  lemma OneOperandRenders(sp: Spelling, document: Document, owner: FieldRef, e: Expression, operand: Expression)
    requires (e == Not(operand) || e == IsBlank(operand)) && RendersAlike(sp, document, owner, operand)
    ensures RendersAlike(sp, document, owner, e)
  {
    OneItem(sp, Unbind(sp, document, owner, e), Unbind(sp, document, owner, operand));
  }

  lemma CompareRenders(sp: Spelling, document: Document, owner: FieldRef, e: Expression)
    requires e.Compare? && RendersAlike(sp, document, owner, e.left) && RendersAlike(sp, document, owner, e.right)
    ensures RendersAlike(sp, document, owner, e)
  {
  }

  lemma OneItem(sp: Spelling, u: Unbound, a: Unbound)
    requires SubFormulas(u) == [a]
    ensures Join(FormatAll(sp, SubFormulas(u), u)) == Format(sp, a)
  {
    assert [a][1..] == [];
  }

  lemma TwoItems(sp: Spelling, u: Unbound, a: Unbound, b: Unbound)
    requires SubFormulas(u) == [a, b]
    ensures Join(FormatAll(sp, SubFormulas(u), u)) == Format(sp, a) + ", " + Format(sp, b)
  {
    assert a in SubFormulas(u) && b in SubFormulas(u);
    assert [a, b][1..] == [b] && [b][1..] == [];
    assert FormatAll(sp, [b], u) == [Format(sp, b)];
    assert FormatAll(sp, [a, b], u) == [Format(sp, a), Format(sp, b)];
    assert [Format(sp, a), Format(sp, b)][1..] == [Format(sp, b)];
  }

  lemma BinaryRenders(sp: Spelling, document: Document, owner: FieldRef, e: Expression)
    requires e.Binary? && RendersAlike(sp, document, owner, e.left) && RendersAlike(sp, document, owner, e.right)
    ensures RendersAlike(sp, document, owner, e)
  {
    var u := Unbind(sp, document, owner, e);
    var l, r := Unbind(sp, document, owner, e.left), Unbind(sp, document, owner, e.right);
    if e.binary == Smaller || e.binary == Larger {
      TwoItems(sp, u, l, r);
      assert CallName(u) == BinaryText(e.binary);
      assert CallName(u) + "(" + (Format(sp, l) + ", " + Format(sp, r)) + ")" == CallName(u) + "(" + Format(sp, l) + ", " + Format(sp, r) + ")";
    } else {
      assert OperatorText(UnbindInfix(e.binary)) == BinaryText(e.binary);
    }
  }

  lemma IfRenders(sp: Spelling, document: Document, owner: FieldRef, e: Expression)
    requires e.If? && RendersAlike(sp, document, owner, e.condition)
    requires RendersAlike(sp, document, owner, e.thenValue) && RendersAlike(sp, document, owner, e.elseValue)
    ensures RendersAlike(sp, document, owner, e)
  {
    var u := Unbind(sp, document, owner, e);
    var c, t, f := Unbind(sp, document, owner, e.condition), Unbind(sp, document, owner, e.thenValue), Unbind(sp, document, owner, e.elseValue);
    ThreeItems(sp, u, c, t, f);
    assert "IF" + "(" + (Format(sp, c) + ", " + (Format(sp, t) + ", " + Format(sp, f))) + ")"
        == "IF(" + Format(sp, c) + ", " + Format(sp, t) + ", " + Format(sp, f) + ")";
  }

  lemma ThreeItems(sp: Spelling, u: Unbound, a: Unbound, b: Unbound, c: Unbound)
    requires SubFormulas(u) == [a, b, c]
    ensures Join(FormatAll(sp, SubFormulas(u), u)) == Format(sp, a) + ", " + (Format(sp, b) + ", " + Format(sp, c))
  {
    assert a in SubFormulas(u) && b in SubFormulas(u) && c in SubFormulas(u);
    assert [a, b, c][1..] == [b, c] && [b, c][1..] == [c] && [c][1..] == [];
    assert FormatAll(sp, [c], u) == [Format(sp, c)];
    assert FormatAll(sp, [b, c], u) == [Format(sp, b), Format(sp, c)];
    assert FormatAll(sp, [a, b, c], u) == [Format(sp, a), Format(sp, b), Format(sp, c)];
    assert [Format(sp, a), Format(sp, b), Format(sp, c)][1..] == [Format(sp, b), Format(sp, c)];
    assert [Format(sp, b), Format(sp, c)][1..] == [Format(sp, c)];
    assert Join([Format(sp, b), Format(sp, c)]) == Format(sp, b) + ", " + Format(sp, c);
  }

  lemma RoundRenders(sp: Spelling, document: Document, owner: FieldRef, e: Expression)
    requires e.Round? && e.digits <= 10 && DigitsSpelled(sp) && RendersAlike(sp, document, owner, e.operand)
    ensures RendersAlike(sp, document, owner, e)
  {
    var u := Unbind(sp, document, owner, e);
    var o, d := Unbind(sp, document, owner, e.operand), NumberLiteral(sp.integer(e.digits));
    TwoItems(sp, u, o, d);
    assert Format(sp, d) == DigitsText(e.digits);
    assert "ROUND" + "(" + (Format(sp, o) + ", " + Format(sp, d)) + ")" == "ROUND(" + Format(sp, o) + ", " + Format(sp, d) + ")";
  }

  lemma {:induction false} AllRender(
    sp: Spelling, document: Document, owner: FieldRef, nodes: seq<Expression>, parent: Expression, up: Unbound
  )
    requires DigitsSpelled(sp) && forall c :: c in nodes ==> c < parent && SmallDigits(c)
    requires forall c :: c in UnbindAll(sp, document, owner, nodes, parent) ==> c < up
    ensures RenderAll(sp, document, owner, nodes, parent) == FormatAll(sp, UnbindAll(sp, document, owner, nodes, parent), up)
    decreases parent, 0, |nodes|
  {
    if nodes != [] {
      var unbound := UnbindAll(sp, document, owner, nodes, parent);
      assert nodes[0] in nodes && forall c :: c in nodes[1..] ==> c in nodes;
      assert unbound[0] in unbound && unbound[1..] == UnbindAll(sp, document, owner, nodes[1..], parent);
      assert forall c :: c in unbound[1..] ==> c in unbound;
      RendersCanonically(sp, document, owner, nodes[0]);
      AllRender(sp, document, owner, nodes[1..], parent, up);
    }
  }

  lemma {:induction false} ConditionalRenders(sp: Spelling, document: Document, owner: FieldRef, e: Expression)
    requires DigitsSpelled(sp) && e.ColumnConditional? && SmallDigits(e)
    ensures RendersAlike(sp, document, owner, e)
    decreases e, 0
  {
    var u := Unbind(sp, document, owner, e);
    forall k | k in e.criteria && k.operand.Some? ensures SmallDigits(k.operand.value) {
      var i :| 0 <= i < |e.criteria| && e.criteria[i] == k;
      assert k.operand.value in Children(e);
    }
    CriteriaRender(sp, document, owner, e.criteria, e, u);
    assert RenderValues(document, e.aggregate) == ValueItems(u.aggregate);
    assert RenderName(e.aggregate) == ConditionalName(u.aggregate);
  }

  lemma {:induction false} CriteriaRender(
    sp: Spelling, document: Document, owner: FieldRef, criteria: seq<ColumnCriterion>, parent: Expression, up: Unbound
  )
    requires DigitsSpelled(sp)
    requires forall k :: k in criteria && k.operand.Some? ==> k.operand.value < parent
    requires forall k :: k in criteria && k.operand.Some? ==> SmallDigits(k.operand.value)
    requires forall k :: k in UnbindCriteria(sp, document, owner, criteria, parent) && k.operand.Some? ==> k.operand.value < up
    ensures RenderCriteria(sp, document, owner, criteria, parent)
         == CriteriaItems(sp, UnbindCriteria(sp, document, owner, criteria, parent), up)
    decreases parent, 0, |criteria|
  {
    if criteria != [] {
      var unbound := UnbindCriteria(sp, document, owner, criteria, parent);
      UnbindCriteriaStep(sp, document, owner, criteria, parent);
      if criteria[0].operand.Some? { RendersCanonically(sp, document, owner, criteria[0].operand.value); }
      CriterionRenders(sp, document, owner, criteria[0], parent, up);
      CriteriaRender(sp, document, owner, criteria[1..], parent, up);
    }
  }

  lemma CriterionRenders(
    sp: Spelling, document: Document, owner: FieldRef, k: ColumnCriterion, parent: Expression, up: Unbound
  )
    requires k.operand.Some? ==> k.operand.value < parent && RendersAlike(sp, document, owner, k.operand.value)
    requires var u := UnbindCriterion(sp, document, owner, k, parent); u.operand.Some? ==> u.operand.value < up
    ensures var u := UnbindCriterion(sp, document, owner, k, parent);
      && RenderCriterion(sp, document, owner, k, parent) == FormatCriterion(sp, u, up)
      && RenderColumn(ColumnAddressOf(document, k.column)) == ColumnText(u.column)
  {
    if k.operand.Some? {
      assert k.operand.value.Literal? <==> Unbind(sp, document, owner, k.operand.value).NumberLiteral?;
    }
  }

  // ---- Projecting ----

  // column_address: the column can be named.
  predicate Nameable(document: Document, k: ColumnRef, numeric: bool) {
    ScalarColumn(document, k) && (numeric ==> ColumnType(document, k) == NumberType)
  }

  lemma {:induction false} AuthoredReferencesExist(document: Document, owner: FieldRef, e: Expression, role: Role)
    requires Authored(document, owner, e, role)
    ensures forall r :: r in DirectReferences(owner, e) ==> Exists(document, r)
  {
    if !IsCellReference(e) {
      forall c | c in Children(e) ensures forall r :: r in DirectReferences(owner, c) ==> Exists(document, r) {
        AuthoredReferencesExist(document, owner, c, ChildRole(e));
      }
    }
  }

  function ChildRole(e: Expression): Role {
    if e.IsBlank? then BlankRole else if e.ColumnConditional? then ScalarRole else NumericRole
  }

  lemma {:induction false} AuthoredColumnsAreNameable(document: Document, owner: FieldRef, e: Expression, role: Role)
    requires Authored(document, owner, e, role)
    ensures forall k :: k in Columns(e) ==> ScalarColumn(document, k)
    ensures forall k :: k in NumericColumns(e) ==> NumericColumn(document, k)
  {
    forall c | c in Children(e)
      ensures forall k :: k in Columns(c) ==> ScalarColumn(document, k)
      ensures forall k :: k in NumericColumns(c) ==> NumericColumn(document, k)
    {
      AuthoredColumnsAreNameable(document, owner, c, ChildRole(e));
    }
    forall k | k in OwnColumns(e) ensures ScalarColumn(document, k) {
      if e.ColumnConditional? && k !in ValueColumn(e.aggregate) {
        var i :| 0 <= i < |e.criteria| && e.criteria[i].column == k;
        assert AuthoredTest(document, e.criteria[i], e.criteria[0].column.schema);
      }
    }
  }

  lemma {:induction false} AuthoredDigitsAreSmall(document: Document, owner: FieldRef, e: Expression, role: Role)
    requires Authored(document, owner, e, role)
    ensures SmallDigits(e)
  {
    forall c | c in Children(e) ensures SmallDigits(c) {
      AuthoredDigitsAreSmall(document, owner, c, ChildRole(e));
    }
  }

  datatype ProjectionError =
    | TooDeepOrLarge(error: ComplexityError)
    | UnresolvableReferences(targets: set<FieldRef>)
    | UnresolvableColumns(columns: set<ColumnRef>)
    | TooLong

  datatype Projected = Projected(text: string) | Refused(error: ProjectionError)

  // Every reference and column the projection has to name can be named.
  predicate Resolvable(document: Document, owner: FieldRef, e: Expression) {
    && (forall r :: r in DirectReferences(owner, e) ==> Exists(document, r))
    && (forall k :: k in Columns(e) ==> Nameable(document, k, k in NumericColumns(e)))
  }

  // project_expression: text, or every target it could not name.
  method ProjectExpression(sp: Spelling, document: Document, owner: FieldRef, e: Expression) returns (r: Projected)
    ensures r.Projected? <==>
      && StructureError(e) == None && UniqueKeys(document) && Resolvable(document, owner, e)
      && |RenderBound(sp, document, owner, e)| <= MAX_INPUT
    ensures r.Projected? ==> r.text == RenderBound(sp, document, owner, e)
    ensures r.Refused? && r.error.UnresolvableReferences? ==>
      r.error.targets == if UniqueKeys(document) then MissingAmong(document, DirectReferences(owner, e)) else DirectReferences(owner, e)
    ensures r.Refused? && r.error.UnresolvableColumns? ==> r.error.columns == UnnameableColumns(document, e)
  {
    if StructureError(e).Some? {
      return Refused(TooDeepOrLarge(StructureError(e).value));
    }
    var index := Build(document);
    if index.None? {
      return Refused(UnresolvableReferences(DirectReferences(owner, e)));
    }
    var unresolved := UnresolvedAmong(document, index.value, DirectReferences(owner, e));
    if unresolved != {} {
      SomeUnresolved(document, DirectReferences(owner, e), unresolved);
      return Refused(UnresolvableReferences(unresolved));
    }
    var columns := UnnameableColumns(document, e);
    if columns != {} {
      SomeUnnameable(document, e);
      return Refused(UnresolvableColumns(columns));
    }
    AllResolvable(document, owner, e);
    var text := RenderBound(sp, document, owner, e);
    if |text| > MAX_INPUT {
      return Refused(TooLong);
    }
    r := Projected(text);
  }

  function MissingAmong(document: Document, references: set<FieldRef>): set<FieldRef> {
    set c | c in references && !Exists(document, c)
  }

  function UnnameableColumns(document: Document, e: Expression): set<ColumnRef> {
    set k | k in Columns(e) && !Nameable(document, k, k in NumericColumns(e))
  }

  // The references without an address that resolves back to them.
  method UnresolvedAmong(document: Document, index: AddressIndex, references: set<FieldRef>) returns (unresolved: set<FieldRef>)
    requires Indexed(document, index)
    ensures unresolved == MissingAmong(document, references)
  {
    unresolved := {};
    var work := references;
    while work != {}
      invariant work <= references && unresolved == MissingAmong(document, references - work)
    {
      var target :| target in work;
      if Exists(document, target) { AddressResolvesBack(document, index, target); }
      if FieldAddress(document, index, target).None? {
        unresolved := unresolved + {target};
      }
      work := work - {target};
    }
    assert references - {} == references;
  }

  lemma SomeUnresolved(document: Document, references: set<FieldRef>, unresolved: set<FieldRef>)
    requires unresolved == MissingAmong(document, references) && unresolved != {}
    ensures exists r :: r in references && !Exists(document, r)
  {
    var c :| c in unresolved;
  }

  lemma SomeUnnameable(document: Document, e: Expression)
    requires UnnameableColumns(document, e) != {}
    ensures exists k :: k in Columns(e) && !Nameable(document, k, k in NumericColumns(e))
  {
    var k :| k in UnnameableColumns(document, e);
  }

  lemma AllResolvable(document: Document, owner: FieldRef, e: Expression)
    requires MissingAmong(document, DirectReferences(owner, e)) == {} && UnnameableColumns(document, e) == {}
    ensures Resolvable(document, owner, e)
  {
    forall c | c in DirectReferences(owner, e) ensures Exists(document, c) {
      assert c !in MissingAmong(document, DirectReferences(owner, e));
    }
    forall k | k in Columns(e) ensures Nameable(document, k, k in NumericColumns(e)) {
      assert k !in UnnameableColumns(document, e);
    }
  }

  // ---- The round trip ----

  lemma AuthoredIsResolvable(document: Document, owner: FieldRef, e: Expression)
    requires Authored(document, owner, e, NumericRole)
    ensures Resolvable(document, owner, e) && SmallDigits(e)
  {
    AuthoredReferencesExist(document, owner, e, NumericRole);
    AuthoredColumnsAreNameable(document, owner, e, NumericRole);
    AuthoredDigitsAreSmall(document, owner, e, NumericRole);
  }

  // ---- Projecting what was bound gives the tree it was bound from ----

  lemma {:induction false} SmallIntegerIs(sp: Spelling, n: Number, from: nat)
    ensures SmallInteger(sp, n, from).Bound? ==> sp.integer(SmallInteger(sp, n, from).value) == n
    decreases 11 - from
  {
    if from <= 10 && sp.integer(from) != n { SmallIntegerIs(sp, n, from + 1); }
  }

  lemma ResolvedIsNamed(document: Document, index: AddressIndex, a: Address)
    requires Indexed(document, index) && ResolveField(document, index, a).Some?
    ensures AddressOf(document, ResolveField(document, index, a).value) == a
  {
    ResolvedIsCurrent(document, index, a);
  }

  lemma OwnIsNamed(document: Document, index: AddressIndex, owner: FieldRef, field: string)
    requires Indexed(document, index) && OwnAddress(document, owner, field).Some?
    requires ResolveField(document, index, OwnAddress(document, owner, field).value).Some?
    ensures var r := ResolveField(document, index, OwnAddress(document, owner, field).value).value;
      AddressOf(document, FieldRef(owner.entity, r.field)).field == field
  {
    OwnAddressIsOwn(document, index, owner, field);
    ResolvedIsCurrent(document, index, OwnAddress(document, owner, field).value);
  }

  lemma ColumnIsNamed(document: Document, index: AddressIndex, a: Address)
    requires Indexed(document, index) && ResolveColumn(document, index, a).Some?
    ensures ColumnAddressOf(document, ResolveColumn(document, index, a).value) == a
  {
    ResolvedColumnIsCurrent(document, index, a);
  }

  // What a tree binds to has that tree as its projection.
  ghost predicate Named(sp: Spelling, document: Document, index: AddressIndex, owner: FieldRef, u: Unbound) {
    var bound := BindNode(sp, document, index, owner, u);
    bound.Bound? ==> Unbind(sp, document, owner, bound.value) == u
  }

  lemma LeafIsNamed(sp: Spelling, document: Document, index: AddressIndex, owner: FieldRef, u: Unbound)
    requires Indexed(document, index)
    requires u.NumberLiteral? || u.CellReference? || u.SameRowReference? || u.TotalOf? || u.AggregateOf?
    ensures Named(sp, document, index, owner, u)
  {
    if BindNode(sp, document, index, owner, u).Bound? {
      match u {
        case CellReference(a) => ResolvedIsNamed(document, index, a);
        case SameRowReference(field) => OwnIsNamed(document, index, owner, field);
        case TotalOf(a) => ColumnIsNamed(document, index, a);
        case AggregateOf(_, a) => ColumnIsNamed(document, index, a);
        case _ =>
      }
    }
  }

  lemma BlankIsNamed(sp: Spelling, document: Document, index: AddressIndex, owner: FieldRef, u: Unbound)
    requires Indexed(document, index) && u.BlankOf?
    ensures Named(sp, document, index, owner, u)
  {
    if BindNode(sp, document, index, owner, u).Bound? {
      match u.operand {
        case CellReference(a) => ResolvedIsNamed(document, index, a);
        case SameRowReference(field) => OwnIsNamed(document, index, owner, field);
        case _ =>
      }
    }
  }

  lemma InfixIsNamed(sp: Spelling, document: Document, index: AddressIndex, owner: FieldRef, u: Unbound)
    requires u.InfixOf? || u.ExtremeOf?
    requires Named(sp, document, index, owner, u.left) && Named(sp, document, index, owner, u.right)
    ensures Named(sp, document, index, owner, u)
  {
  }

  lemma RoundIsNamed(sp: Spelling, document: Document, index: AddressIndex, owner: FieldRef, u: Unbound)
    requires u.RoundOf? && Named(sp, document, index, owner, u.operand)
    ensures Named(sp, document, index, owner, u)
  {
    if u.digits.NumberLiteral? { SmallIntegerIs(sp, u.digits.number, 0); }
  }

  lemma IfIsNamed(sp: Spelling, document: Document, index: AddressIndex, owner: FieldRef, u: Unbound)
    requires u.IfOf? && Named(sp, document, index, owner, u.condition)
    requires Named(sp, document, index, owner, u.thenValue) && Named(sp, document, index, owner, u.elseValue)
    ensures Named(sp, document, index, owner, u)
  {
  }

  lemma {:induction false} BoundIsNamed(sp: Spelling, document: Document, index: AddressIndex, owner: FieldRef, u: Unbound)
    requires Indexed(document, index)
    ensures Named(sp, document, index, owner, u)
    decreases u, 1
  {
    match u {
      case InfixOf(_, left, right) =>
        BoundIsNamed(sp, document, index, owner, left);
        BoundIsNamed(sp, document, index, owner, right);
        InfixIsNamed(sp, document, index, owner, u);
      case ExtremeOf(_, left, right) =>
        BoundIsNamed(sp, document, index, owner, left);
        BoundIsNamed(sp, document, index, owner, right);
        InfixIsNamed(sp, document, index, owner, u);
      case IfOf(condition, thenValue, elseValue) =>
        BoundIsNamed(sp, document, index, owner, condition);
        BoundIsNamed(sp, document, index, owner, thenValue);
        BoundIsNamed(sp, document, index, owner, elseValue);
        IfIsNamed(sp, document, index, owner, u);
      case LogicalOf(_, _) => LogicalIsNamed(sp, document, index, owner, u);
      case NotOf(operand) => BoundIsNamed(sp, document, index, owner, operand);
      case RoundOf(operand, _) =>
        BoundIsNamed(sp, document, index, owner, operand);
        RoundIsNamed(sp, document, index, owner, u);
      case BlankOf(_) => BlankIsNamed(sp, document, index, owner, u);
      case ConditionalOf(_, _) => ConditionalIsNamedBack(sp, document, index, owner, u);
      case _ => LeafIsNamed(sp, document, index, owner, u);
    }
  }

  lemma {:induction false} LogicalIsNamed(sp: Spelling, document: Document, index: AddressIndex, owner: FieldRef, u: Unbound)
    requires Indexed(document, index) && u.LogicalOf?
    ensures Named(sp, document, index, owner, u)
    decreases u, 0
  {
    var bound := BindNode(sp, document, index, owner, u);
    if bound.Bound? {
      assert forall c :: c in bound.value.arguments ==> c < bound.value;
      AllAreNamed(sp, document, index, owner, u.arguments, u, bound.value);
    }
  }

  lemma {:induction false} AllAreNamed(
    sp: Spelling, document: Document, index: AddressIndex, owner: FieldRef, nodes: seq<Unbound>, up: Unbound, parent: Expression
  )
    requires Indexed(document, index) && forall c :: c in nodes ==> c < up
    requires BindAll(sp, document, index, owner, nodes, up).Bound?
    requires forall c :: c in BindAll(sp, document, index, owner, nodes, up).value ==> c < parent
    ensures UnbindAll(sp, document, owner, BindAll(sp, document, index, owner, nodes, up).value, parent) == nodes
    decreases up, 0, |nodes|
  {
    if nodes != [] {
      assert nodes[0] in nodes && forall c :: c in nodes[1..] ==> c in nodes;
      var bound := BindAll(sp, document, index, owner, nodes, up).value;
      var rest := BindAll(sp, document, index, owner, nodes[1..], up).value;
      assert bound[1..] == rest && bound[0] in bound && forall c :: c in rest ==> c in bound;
      BoundIsNamed(sp, document, index, owner, nodes[0]);
      assert Named(sp, document, index, owner, nodes[0]);
      AllAreNamed(sp, document, index, owner, nodes[1..], up, parent);
      assert [nodes[0]] + nodes[1..] == nodes;
    }
  }

  lemma {:induction false} OperandIsNamed(sp: Spelling, document: Document, index: AddressIndex, owner: FieldRef, u: Unbound)
    requires Indexed(document, index) && BindOperand(sp, document, index, owner, u).Bound?
    ensures Unbind(sp, document, owner, BindOperand(sp, document, index, owner, u).value) == u
    decreases u, 2
  {
    match u {
      case CellReference(a) => ResolvedIsNamed(document, index, a);
      case SameRowReference(field) => OwnIsNamed(document, index, owner, field);
      case _ =>
        BoundIsNamed(sp, document, index, owner, u);
        assert Named(sp, document, index, owner, u);
    }
  }

  lemma {:induction false} ConditionalIsNamedBack(sp: Spelling, document: Document, index: AddressIndex, owner: FieldRef, u: Unbound)
    requires Indexed(document, index) && u.ConditionalOf?
    ensures Named(sp, document, index, owner, u)
    decreases u, 0
  {
    var bound := BindNode(sp, document, index, owner, u);
    if bound.Bound? {
      OperandsBelong(bound.value);
      CriteriaBelong(u);
      CriteriaAreNamed(sp, document, index, owner, u.criteria, None, u, bound.value);
      if !u.aggregate.CountMatches? { ColumnIsNamed(document, index, u.aggregate.column); }
    }
  }

  lemma OperandsBelong(e: Expression)
    requires e.ColumnConditional?
    ensures forall k :: k in e.criteria && k.operand.Some? ==> k.operand.value < e
  {
    forall k | k in e.criteria && k.operand.Some? ensures k.operand.value < e {
      var i :| 0 <= i < |e.criteria| && e.criteria[i] == k;
      assert k.operand.value in Children(e);
    }
  }

  lemma {:induction false} CriteriaAreNamed(
    sp: Spelling, document: Document, index: AddressIndex, owner: FieldRef, criteria: seq<UnboundCriterion>,
    known: Option<SchemaId>, up: Unbound, parent: Expression
  )
    requires Indexed(document, index) && forall k :: k in criteria && k.operand.Some? ==> k.operand.value < up
    requires BindCriteria(sp, document, index, owner, criteria, known, up).Bound?
    requires forall k :: k in BindCriteria(sp, document, index, owner, criteria, known, up).value && k.operand.Some? ==>
      k.operand.value < parent
    ensures UnbindCriteria(sp, document, owner, BindCriteria(sp, document, index, owner, criteria, known, up).value, parent) == criteria
    decreases up, 0, |criteria|
  {
    if criteria != [] {
      assert criteria[0] in criteria && forall k :: k in criteria[1..] ==> k in criteria;
      var column := BindCriterionColumn(document, index, criteria[0].column).value;
      var bound := BindCriteria(sp, document, index, owner, criteria, known, up).value;
      var rest := BindCriteria(sp, document, index, owner, criteria[1..], Some(column.schema), up).value;
      assert bound[1..] == rest && bound[0] in bound && forall k :: k in rest ==> k in bound;
      CriterionIsNamed(sp, document, index, owner, criteria[0], up, bound[0], parent);
      CriteriaAreNamed(sp, document, index, owner, criteria[1..], Some(column.schema), up, parent);
      UnbindCriteriaStep(sp, document, owner, bound, parent);
      assert [criteria[0]] + criteria[1..] == criteria;
    }
  }

  lemma {:induction false} CriterionIsNamed(
    sp: Spelling, document: Document, index: AddressIndex, owner: FieldRef, k: UnboundCriterion, up: Unbound,
    bound: ColumnCriterion, parent: Expression
  )
    requires Indexed(document, index) && (k.operand.Some? ==> k.operand.value < up)
    requires bound.operand.Some? ==> bound.operand.value < parent
    requires BindCriterionColumn(document, index, k.column) == Bound(bound.column) && bound.operator == k.operator
    requires BindTestOperand(sp, document, index, owner, k.operand, up) == Bound(bound.operand)
    ensures UnbindCriterion(sp, document, owner, bound, parent) == k
    decreases up, 0, 0
  {
    ColumnIsNamed(document, index, k.column);
    if k.operand.Some? { OperandIsNamed(sp, document, index, owner, k.operand.value); }
  }

  // The limits of the bound formula, of the parser and of the text.
  predicate ProjectionFits(sp: Spelling, document: Document, owner: FieldRef, e: Expression) {
    && StructureError(e) == None
    && ParserNodes(Unbind(sp, document, owner, e)) <= MAX_NODES
    && |RenderBound(sp, document, owner, e)| <= MAX_INPUT
  }

  // The tree a formula projects to is one the parser can produce: the keys it
  // names are identifiers.
  predicate NamesIdentifiers(sp: Spelling, document: Document, owner: FieldRef, e: Expression) {
    WellFormed(Unbind(sp, document, owner, e))
  }

  // A projected formula parses and binds back to itself if and only if no two
  // keys of a kind are the same, those it names are identifiers and the limits
  // hold: its own node count counts ROUND digits and column arguments too.
  method ProjectParseBind(rules: Rules, sp: Spelling, document: Document, owner: FieldRef, e: Expression)
      returns (r: Option<Bound<Expression>>)
    requires Faithful(rules, sp) && DigitsSpelled(sp)
    requires Authored(document, owner, e, NumericRole) && TypeOf(e) == Some(NumberResult)
    ensures r == Some(Bound(e)) <==>
      UniqueKeys(document) && NamesIdentifiers(sp, document, owner, e) && ProjectionFits(sp, document, owner, e)
    ensures !UniqueKeys(document) ==> r == None
    ensures NamesIdentifiers(sp, document, owner, e) && !ProjectionFits(sp, document, owner, e) ==> r == None
  {
    ghost var u := Unbind(sp, document, owner, e);
    ghost var want := if WellFormed(u) then Some(u) else None;
    AuthoredIsResolvable(document, owner, e);
    RendersCanonically(sp, document, owner, e);
    var projected := ProjectExpression(sp, document, owner, e);
    if projected.Refused? {
      return None;
    }
    ShallowFormula(sp, document, owner, e);
    CanonicalIsLegible(sp);
    if want.Some? { CanonicalFits(sp, u); }
    var parsed := ParseExpression(rules, sp, projected.text, CanonicalWriting(sp), want);
    if parsed.ParseError? {
      return None;
    }
    var index := Build(document);
    BindsBack(sp, document, index.value, owner, e);
    BoundIsNamed(sp, document, index.value, owner, parsed.value);
    assert Named(sp, document, index.value, owner, parsed.value);
    var bound := BindExpression(sp, document, index.value, owner, parsed.value);
    r := Some(bound);
  }

  lemma ShallowFormula(sp: Spelling, document: Document, owner: FieldRef, e: Expression)
    requires StructureError(e) == None
    ensures Depth(Unbind(sp, document, owner, e)) <= MAX_DEPTH
  {
    WithinLimits(Depths(e, 1), 0);
    ProjectedDepth(sp, document, owner, e, 1);
  }

  // ---- Whatever binds is authored ----

  lemma ResolvedIsReadable(document: Document, index: AddressIndex, a: Address)
    requires Indexed(document, index)
    ensures var r := BindNumeric(document, index, a); r.Bound? ==> Readable(document, r.value, NumericRole)
    ensures var r := BindScalar(document, index, a); r.Bound? ==> Readable(document, r.value, ScalarRole)
    ensures var r := ResolveField(document, index, a); r.Some? ==> Readable(document, r.value, BlankRole)
  {
    if ResolveField(document, index, a).Some? { ResolvedIsCurrent(document, index, a); }
  }

  // A same-row reference binds to a field of the owner's own row.
  lemma OwnAddressIsOwn(document: Document, index: AddressIndex, owner: FieldRef, field: string)
    requires Indexed(document, index) && owner.entity in document.entities
    ensures var r := ResolveField(document, index, Address(document.entities[owner.entity].key, field));
      r.Some? ==> r.value.entity == owner.entity
  {
    assert owner.entity in EntityKeys(document) && EntityKeys(document)[owner.entity] == document.entities[owner.entity].key;
  }

  lemma LeafIsAuthored(sp: Spelling, document: Document, index: AddressIndex, owner: FieldRef, u: Unbound)
    requires Indexed(document, index) && BindNode(sp, document, index, owner, u).Bound?
    requires u.CellReference? || u.SameRowReference? || u.TotalOf? || u.AggregateOf? || u.NumberLiteral?
    ensures Authored(document, owner, BindNode(sp, document, index, owner, u).value, NumericRole)
  {
    match u {
      case CellReference(a) => ResolvedIsReadable(document, index, a);
      case SameRowReference(field) =>
        OwnAddressIsOwn(document, index, owner, field);
        ResolvedIsReadable(document, index, Address(document.entities[owner.entity].key, field));
      case _ =>
    }
  }

  lemma BlankIsAuthored(document: Document, index: AddressIndex, owner: FieldRef, u: Unbound)
    requires Indexed(document, index) && BindBlank(document, index, owner, u).Bound?
    ensures var e := BindBlank(document, index, owner, u).value;
      IsCellReference(e) && Authored(document, owner, e, BlankRole)
  {
    match u {
      case CellReference(a) => ResolvedIsReadable(document, index, a);
      case SameRowReference(field) =>
        OwnAddressIsOwn(document, index, owner, field);
        ResolvedIsReadable(document, index, Address(document.entities[owner.entity].key, field));
      case _ =>
    }
  }

  lemma {:induction false} BoundIsAuthored(sp: Spelling, document: Document, index: AddressIndex, owner: FieldRef, u: Unbound)
    requires Indexed(document, index) && WellFormed(u) && BindNode(sp, document, index, owner, u).Bound?
    ensures Authored(document, owner, BindNode(sp, document, index, owner, u).value, NumericRole)
    decreases u, 1
  {
    var e := BindNode(sp, document, index, owner, u).value;
    match u {
      case ConditionalOf(_, _) => ConditionalIsAuthored(sp, document, index, owner, u);
      case LogicalOf(_, arguments) => AllAreAuthored(sp, document, index, owner, arguments, u);
      case InfixOf(_, left, right) => PairIsAuthored(sp, document, index, owner, u, left, right);
      case ExtremeOf(_, left, right) => PairIsAuthored(sp, document, index, owner, u, left, right);
      case IfOf(condition, thenValue, elseValue) =>
        assert SubFormulas(u) == [condition, thenValue, elseValue];
        assert condition in SubFormulas(u) && thenValue in SubFormulas(u) && elseValue in SubFormulas(u);
        BoundIsAuthored(sp, document, index, owner, condition);
        BoundIsAuthored(sp, document, index, owner, thenValue);
        BoundIsAuthored(sp, document, index, owner, elseValue);
      case NotOf(operand) =>
        assert operand in SubFormulas(u);
        BoundIsAuthored(sp, document, index, owner, operand);
      case RoundOf(operand, digits) =>
        assert operand in SubFormulas(u);
        BoundIsAuthored(sp, document, index, owner, operand);
        if digits.NumberLiteral? { SmallIntegerIsSmall(sp, digits.number, 0); }
      case BlankOf(operand) => BlankIsAuthored(document, index, owner, operand);
      case _ => LeafIsAuthored(sp, document, index, owner, u);
    }
  }

  lemma {:induction false} PairIsAuthored(
    sp: Spelling, document: Document, index: AddressIndex, owner: FieldRef, u: Unbound, left: Unbound, right: Unbound
  )
    requires Indexed(document, index) && WellFormed(u) && BindNode(sp, document, index, owner, u).Bound?
    requires (u.InfixOf? || u.ExtremeOf?) && u.left == left && u.right == right
    ensures Authored(document, owner, BindNode(sp, document, index, owner, u).value, NumericRole)
    decreases u, 0
  {
    PairParts(sp, document, index, owner, u, left, right);
    BoundIsAuthored(sp, document, index, owner, left);
    BoundIsAuthored(sp, document, index, owner, right);
  }

  lemma PairParts(sp: Spelling, document: Document, index: AddressIndex, owner: FieldRef, u: Unbound, left: Unbound, right: Unbound)
    requires WellFormed(u) && BindNode(sp, document, index, owner, u).Bound?
    requires (u.InfixOf? || u.ExtremeOf?) && u.left == left && u.right == right
    ensures WellFormed(left) && WellFormed(right)
    ensures BindNode(sp, document, index, owner, left).Bound? && BindNode(sp, document, index, owner, right).Bound?
    ensures var e := BindNode(sp, document, index, owner, u).value;
      && (e.Binary? || e.Compare?)
      && Children(e) == [BindNode(sp, document, index, owner, left).value, BindNode(sp, document, index, owner, right).value]
  {
    assert SubFormulas(u) == [left, right];
    assert left in SubFormulas(u) && right in SubFormulas(u);
  }

  lemma {:induction false} AllAreAuthored(
    sp: Spelling, document: Document, index: AddressIndex, owner: FieldRef, nodes: seq<Unbound>, parent: Unbound
  )
    requires Indexed(document, index) && forall c :: c in nodes ==> c < parent && WellFormed(c)
    requires BindAll(sp, document, index, owner, nodes, parent).Bound?
    ensures var bound := BindAll(sp, document, index, owner, nodes, parent).value;
      |bound| == |nodes| && forall c :: c in bound ==> Authored(document, owner, c, NumericRole)
    decreases parent, 0, |nodes|
  {
    if nodes != [] {
      assert nodes[0] in nodes && forall c :: c in nodes[1..] ==> c in nodes;
      BoundIsAuthored(sp, document, index, owner, nodes[0]);
      AllAreAuthored(sp, document, index, owner, nodes[1..], parent);
    }
  }

  lemma {:induction false} OperandIsAuthored(sp: Spelling, document: Document, index: AddressIndex, owner: FieldRef, u: Unbound)
    requires Indexed(document, index) && WellFormed(u) && BindOperand(sp, document, index, owner, u).Bound?
    ensures Authored(document, owner, BindOperand(sp, document, index, owner, u).value, ScalarRole)
    decreases u, 2
  {
    match u {
      case CellReference(a) => ResolvedIsReadable(document, index, a);
      case SameRowReference(field) =>
        OwnAddressIsOwn(document, index, owner, field);
        ResolvedIsReadable(document, index, Address(document.entities[owner.entity].key, field));
      case _ =>
        BoundIsAuthored(sp, document, index, owner, u);
        NotAReference(sp, document, index, owner, u);
    }
  }

  lemma NotAReference(sp: Spelling, document: Document, index: AddressIndex, owner: FieldRef, u: Unbound)
    requires BindNode(sp, document, index, owner, u).Bound? && !u.CellReference? && !u.SameRowReference?
    ensures var e := BindNode(sp, document, index, owner, u).value;
      !IsCellReference(e) && (Authored(document, owner, e, NumericRole) ==> Authored(document, owner, e, ScalarRole))
    ensures u.NumberLiteral? ==> BindNode(sp, document, index, owner, u).value.Literal?
  {
  }

  lemma {:induction false} ConditionalIsAuthored(sp: Spelling, document: Document, index: AddressIndex, owner: FieldRef, u: Unbound)
    requires Indexed(document, index) && u.ConditionalOf? && WellFormed(u) && BindNode(sp, document, index, owner, u).Bound?
    ensures Authored(document, owner, BindNode(sp, document, index, owner, u).value, NumericRole)
    decreases u, 0
  {
    SoundCriteria(u);
    var e := BindNode(sp, document, index, owner, u).value;
    CriteriaAreAuthored(sp, document, index, owner, u.criteria, None, u);
    OperandsAreAuthored(document, owner, e.criteria);
  }

  ghost predicate BoundCriterion(document: Document, owner: FieldRef, k: ColumnCriterion, schema: SchemaId) {
    AuthoredTest(document, k, schema) && (k.operand.Some? ==> Authored(document, owner, k.operand.value, ScalarRole))
  }

  lemma OperandsAreAuthored(document: Document, owner: FieldRef, criteria: seq<ColumnCriterion>)
    requires criteria != [] && forall k :: k in criteria ==> BoundCriterion(document, owner, k, criteria[0].column.schema)
    ensures forall c :: c in Operands(criteria) ==> Authored(document, owner, c, ScalarRole)
    ensures forall k :: k in criteria ==> AuthoredTest(document, k, criteria[0].column.schema)
  {
    forall c | c in Operands(criteria) ensures Authored(document, owner, c, ScalarRole) {
      var i :| 0 <= i < |criteria| && criteria[i].operand == Some(c);
      assert criteria[i] in criteria;
    }
  }

  lemma {:induction false} CriteriaAreAuthored(
    sp: Spelling, document: Document, index: AddressIndex, owner: FieldRef, criteria: seq<UnboundCriterion>,
    known: Option<SchemaId>, parent: Unbound
  )
    requires Indexed(document, index)
    requires forall k :: k in criteria && k.operand.Some? ==> k.operand.value < parent
    requires forall k :: k in criteria ==> SoundCriterion(k)
    requires BindCriteria(sp, document, index, owner, criteria, known, parent).Bound?
    ensures var bound := BindCriteria(sp, document, index, owner, criteria, known, parent).value;
      && |bound| == |criteria|
      && (known.Some? && bound != [] ==> bound[0].column.schema == known.value)
      && forall k :: k in bound ==> BoundCriterion(document, owner, k, bound[0].column.schema)
    decreases parent, 0, |criteria|
  {
    if criteria != [] {
      assert criteria[0] in criteria && forall k :: k in criteria[1..] ==> k in criteria;
      var column := BindCriterionColumn(document, index, criteria[0].column).value;
      CriteriaAreAuthored(sp, document, index, owner, criteria[1..], Some(column.schema), parent);
      CriterionIsAuthored(sp, document, index, owner, criteria[0], parent);
      var bound := BindCriteria(sp, document, index, owner, criteria, known, parent).value;
      var rest := BindCriteria(sp, document, index, owner, criteria[1..], Some(column.schema), parent).value;
      assert bound[0].column == column && bound[1..] == rest;
      forall k | k in bound ensures BoundCriterion(document, owner, k, column.schema) {
        assert k == bound[0] || k in rest;
      }
    }
  }

  lemma {:induction false} CriterionIsAuthored(
    sp: Spelling, document: Document, index: AddressIndex, owner: FieldRef, k: UnboundCriterion, parent: Unbound
  )
    requires Indexed(document, index) && SoundCriterion(k) && (k.operand.Some? ==> k.operand.value < parent)
    requires BindCriterionColumn(document, index, k.column).Bound?
    requires BindTestOperand(sp, document, index, owner, k.operand, parent).Bound?
    ensures var column := BindCriterionColumn(document, index, k.column).value;
      var operand := BindTestOperand(sp, document, index, owner, k.operand, parent).value;
      BoundCriterion(document, owner, ColumnCriterion(column, k.operator, operand), column.schema)
    decreases parent, 0, 0
  {
    if k.operand.Some? {
      OperandIsAuthored(sp, document, index, owner, k.operand.value);
    }
  }

  // Projecting what was bound, and parsing and binding the text again, gives
  // the same formula exactly when the projection fits; otherwise it is refused.
  method Rebind(rules: Rules, sp: Spelling, document: Document, owner: FieldRef, u: Unbound)
      returns (first: Bound<Expression>, second: Option<Bound<Expression>>)
    requires Faithful(rules, sp) && DigitsSpelled(sp) && WellFormed(u)
    ensures first.Bound? ==> UniqueKeys(document)
    ensures first.Bound? ==> second == if ProjectionFits(sp, document, owner, first.value) then Some(first) else None
  {
    var index := Build(document);
    second := None;
    if index.None? {
      return Unbindable(NoIndex), None;
    }
    first := BindExpression(sp, document, index.value, owner, u);
    if first.Bound? {
      BoundIsAuthored(sp, document, index.value, owner, u);
      BoundIsNamed(sp, document, index.value, owner, u);
      assert Named(sp, document, index.value, owner, u);
      second := ProjectParseBind(rules, sp, document, owner, first.value);
    }
  }
}
