/** Binding human addresses to stable ids through an address index, and the way back. */
module Binding {
  import opened Model
  import opened Expressions
  import opened UnboundFormulas
  import opened FormulaParser

  // ---- The address index ----

  datatype AddressIndex = AddressIndex(
    schemas: map<string, SchemaId>,
    entities: map<string, EntityId>,
    fields: map<SchemaId, map<string, FieldId>>
  )

  // `back` is the exact inverse of a map from ids to keys.
  ghost predicate InvertsKeys(keys: map<nat, string>, back: map<string, nat>) {
    forall k, id :: (k in back && back[k] == id) <==> (id in keys && keys[id] == k)
  }

  ghost predicate HasDuplicate(keys: map<nat, string>) {
    exists a, b :: a in keys && b in keys && a != b && keys[a] == keys[b]
  }

  function SchemaKeys(document: Document): map<SchemaId, string> {
    map s | s in document.schemas :: document.schemas[s].key
  }

  function EntityKeys(document: Document): map<EntityId, string> {
    map e | e in document.entities :: document.entities[e].key
  }

  function FieldKeys(schema: Schema): map<FieldId, string> {
    map f | f in schema.fields :: schema.fields[f].key
  }

  ghost predicate Indexed(document: Document, index: AddressIndex) {
    && InvertsKeys(SchemaKeys(document), index.schemas)
    && InvertsKeys(EntityKeys(document), index.entities)
    && index.fields.Keys == document.schemas.Keys
    && forall s :: s in document.schemas ==> InvertsKeys(FieldKeys(document.schemas[s]), index.fields[s])
  }

  ghost predicate UniqueKeys(document: Document) {
    && !HasDuplicate(SchemaKeys(document)) && !HasDuplicate(EntityKeys(document))
    && forall s :: s in document.schemas ==> !HasDuplicate(FieldKeys(document.schemas[s]))
  }

  // One grouping pass: refuse a key two ids share.
  method Invert(keys: map<nat, string>) returns (back: Option<map<string, nat>>)
    ensures back.None? <==> HasDuplicate(keys)
    ensures back.Some? ==> InvertsKeys(keys, back.value)
  {
    var inverse: map<string, nat> := map[];
    var work := keys.Keys;
    while work != {}
      invariant work <= keys.Keys
      invariant forall k, id :: (k in inverse && inverse[k] == id) <==> (id in keys.Keys - work && keys[id] == k)
    {
      var id :| id in work;
      if keys[id] in inverse {
        var other := inverse[keys[id]];
        assert other in keys.Keys - work && keys[other] == keys[id];
        return None;
      }
      ghost var was := inverse;
      inverse := inverse[keys[id] := id];
      forall k, i ensures (k in inverse && inverse[k] == i) <==> (i in keys.Keys - (work - {id}) && keys[i] == k) {
        assert (k in was && was[k] == i) <==> (i in keys.Keys - work && keys[i] == k);
      }
      work := work - {id};
    }
    forall k, id ensures (k in inverse && inverse[k] == id) <==> (id in keys && keys[id] == k) {
      assert (k in inverse && inverse[k] == id) <==> (id in keys.Keys - {} && keys[id] == k);
    }
    InverseHasNoDuplicate(keys, inverse);
    back := Some(inverse);
  }

  lemma InverseHasNoDuplicate(keys: map<nat, string>, back: map<string, nat>)
    requires InvertsKeys(keys, back)
    ensures !HasDuplicate(keys)
  {
    forall a, b | a in keys && b in keys && keys[a] == keys[b] ensures a == b {
      assert back[keys[a]] == a && back[keys[b]] == b;
    }
  }

  method InvertFields(document: Document) returns (fields: Option<map<SchemaId, map<string, FieldId>>>)
    ensures fields.None? <==> exists s :: s in document.schemas && HasDuplicate(FieldKeys(document.schemas[s]))
    ensures fields.Some? ==> fields.value.Keys == document.schemas.Keys
    ensures fields.Some? ==> forall s :: s in document.schemas ==> InvertsKeys(FieldKeys(document.schemas[s]), fields.value[s])
  {
    var found: map<SchemaId, map<string, FieldId>> := map[];
    var work := document.schemas.Keys;
    while work != {}
      invariant work <= document.schemas.Keys && found.Keys == document.schemas.Keys - work
      invariant forall s :: s in found ==>
        InvertsKeys(FieldKeys(document.schemas[s]), found[s]) && !HasDuplicate(FieldKeys(document.schemas[s]))
    {
      var schema :| schema in work;
      var inverse := Invert(FieldKeys(document.schemas[schema]));
      if inverse.None? {
        return None;
      }
      found := found[schema := inverse.value];
      work := work - {schema};
    }
    fields := Some(found);
  }

  // AddressIndex::build: it builds just when no two schemas, no two fields of a
  // schema and no two entities share a key.
  method Build(document: Document) returns (index: Option<AddressIndex>)
    ensures index.Some? <==> UniqueKeys(document)
    ensures index.Some? ==> Indexed(document, index.value)
  {
    var schemas := Invert(SchemaKeys(document));
    if schemas.None? {
      return None;
    }
    var fields := InvertFields(document);
    if fields.None? {
      return None;
    }
    var entities := Invert(EntityKeys(document));
    if entities.None? {
      return None;
    }
    index := Some(AddressIndex(schemas.value, entities.value, fields.value));
  }

  // resolve_field.
  function ResolveField(document: Document, index: AddressIndex, a: Address): Option<FieldRef> {
    if a.owner !in index.entities || index.entities[a.owner] !in document.entities then None
    else
      var entity := index.entities[a.owner];
      var schema := document.entities[entity].schema;
      if schema !in index.fields || a.field !in index.fields[schema] then None
      else Some(FieldRef(entity, index.fields[schema][a.field]))
  }

  // The row, schema and field of a reference exist.
  predicate Exists(document: Document, r: FieldRef) {
    && r.entity in document.entities
    && document.entities[r.entity].schema in document.schemas
    && r.field in document.schemas[document.entities[r.entity].schema].fields
  }

  function TypeAt(document: Document, r: FieldRef): FieldType
    requires Exists(document, r)
  {
    document.schemas[document.entities[r.entity].schema].fields[r.field].fieldType
  }

  function AddressAt(document: Document, r: FieldRef): Address
    requires Exists(document, r)
  {
    Address(document.entities[r.entity].key, document.schemas[document.entities[r.entity].schema].fields[r.field].key)
  }

  // field_address: the current address, checked to resolve back.
  function FieldAddress(document: Document, index: AddressIndex, r: FieldRef): Option<Address> {
    if !Exists(document, r) then None
    else if ResolveField(document, index, AddressAt(document, r)) != Some(r) then None
    else Some(AddressAt(document, r))
  }

  // In an indexed document an address always resolves back, so the mismatch the
  // code checks for cannot happen.
  lemma AddressResolvesBack(document: Document, index: AddressIndex, r: FieldRef)
    requires Indexed(document, index) && Exists(document, r)
    ensures ResolveField(document, index, AddressAt(document, r)) == Some(r)
    ensures FieldAddress(document, index, r) == Some(AddressAt(document, r))
  {
    var entity := document.entities[r.entity];
    var schema := document.schemas[entity.schema];
    assert r.entity in EntityKeys(document) && EntityKeys(document)[r.entity] == entity.key;
    assert r.field in FieldKeys(schema) && FieldKeys(schema)[r.field] == schema.fields[r.field].key;
  }

  // And a resolved address is the current address of what it resolved to.
  lemma ResolvedIsCurrent(document: Document, index: AddressIndex, a: Address)
    requires Indexed(document, index) && ResolveField(document, index, a).Some?
    ensures var r := ResolveField(document, index, a).value;
      Exists(document, r) && AddressAt(document, r) == a
  {
    var entity := index.entities[a.owner];
    var schema := document.entities[entity].schema;
    assert entity in EntityKeys(document) && EntityKeys(document)[entity] == a.owner;
    assert index.fields[schema][a.field] in FieldKeys(document.schemas[schema]);
  }

  predicate ColumnExists(document: Document, k: ColumnRef) {
    k.schema in document.schemas && k.field in document.schemas[k.schema].fields
  }

  function ColumnType(document: Document, k: ColumnRef): FieldType
    requires ColumnExists(document, k)
  {
    document.schemas[k.schema].fields[k.field].fieldType
  }

  function ColumnAddressAt(document: Document, k: ColumnRef): Address
    requires ColumnExists(document, k)
  {
    Address(document.schemas[k.schema].key, document.schemas[k.schema].fields[k.field].key)
  }

  function ResolveColumn(document: Document, index: AddressIndex, a: Address): Option<ColumnRef> {
    if a.owner !in index.schemas then None
    else
      var schema := index.schemas[a.owner];
      if schema !in index.fields || a.field !in index.fields[schema] then None
      else
        var k := ColumnRef(schema, index.fields[schema][a.field]);
        if ColumnExists(document, k) then Some(k) else None
  }

  lemma ColumnResolvesBack(document: Document, index: AddressIndex, k: ColumnRef)
    requires Indexed(document, index) && ColumnExists(document, k)
    ensures ResolveColumn(document, index, ColumnAddressAt(document, k)) == Some(k)
  {
    var schema := document.schemas[k.schema];
    assert k.schema in SchemaKeys(document) && SchemaKeys(document)[k.schema] == schema.key;
    assert k.field in FieldKeys(schema) && FieldKeys(schema)[k.field] == schema.fields[k.field].key;
  }

  lemma ResolvedColumnIsCurrent(document: Document, index: AddressIndex, a: Address)
    requires Indexed(document, index) && ResolveColumn(document, index, a).Some?
    ensures ColumnAddressAt(document, ResolveColumn(document, index, a).value) == a
  {
    var k := ResolveColumn(document, index, a).value;
    assert k.schema in SchemaKeys(document) && SchemaKeys(document)[k.schema] == a.owner;
    assert k.field in FieldKeys(document.schemas[k.schema]);
  }

  // ---- Binding ----

  datatype BindFailure =
    AddressUnknown | NonNumericTarget | ColumnUnknown | NonNumericColumnTarget | IllTyped | OwnerMissing | TooComplex | NoIndex

  datatype Bound<+T> = Bound(value: T) | Unbindable(failure: BindFailure)

  // bind_numeric_reference.
  function BindNumeric(document: Document, index: AddressIndex, a: Address): Bound<FieldRef> {
    match ResolveField(document, index, a)
    case None => Unbindable(AddressUnknown)
    case Some(r) =>
      if !Exists(document, r) then Unbindable(NoIndex)
      else if TypeAt(document, r) != NumberType then Unbindable(NonNumericTarget)
      else Bound(r)
  }

  // bind_scalar_reference.
  function BindScalar(document: Document, index: AddressIndex, a: Address): Bound<FieldRef> {
    match ResolveField(document, index, a)
    case None => Unbindable(AddressUnknown)
    case Some(r) =>
      if !Exists(document, r) then Unbindable(NoIndex)
      else if TypeAt(document, r).ReferenceType? then Unbindable(IllTyped)
      else Bound(r)
  }

  // bind_column_reference.
  function BindColumn(document: Document, index: AddressIndex, a: Address): Bound<ColumnRef> {
    match ResolveColumn(document, index, a)
    case None => Unbindable(ColumnUnknown)
    case Some(k) => if ColumnType(document, k) != NumberType then Unbindable(NonNumericColumnTarget) else Bound(k)
  }

  // bind_criterion_column.
  function BindCriterionColumn(document: Document, index: AddressIndex, a: Address): Bound<ColumnRef> {
    match ResolveColumn(document, index, a)
    case None => Unbindable(ColumnUnknown)
    case Some(k) => if ColumnType(document, k).ReferenceType? then Unbindable(IllTyped) else Bound(k)
  }

  // The address a same-row field has for the owner's row.
  function OwnAddress(document: Document, owner: FieldRef, field: string): Option<Address> {
    if owner.entity in document.entities then Some(Address(document.entities[owner.entity].key, field)) else None
  }

  // bind_round_digits: an integer literal from 0 to 10.
  function BindDigits(sp: Spelling, e: Unbound): Bound<nat> {
    if e.NumberLiteral? then SmallInteger(sp, e.number, 0) else Unbindable(IllTyped)
  }

  function SmallInteger(sp: Spelling, n: Number, from: nat): Bound<nat>
    decreases 11 - from
  {
    if from > 10 then Unbindable(IllTyped) else if sp.integer(from) == n then Bound(from) else SmallInteger(sp, n, from + 1)
  }

  // bind_blank_reference.
  function BindBlank(document: Document, index: AddressIndex, owner: FieldRef, e: Unbound): Bound<Expression> {
    match e
    case CellReference(a) =>
      (match ResolveField(document, index, a) case None => Unbindable(AddressUnknown) case Some(r) => Bound(Reference(r)))
    case SameRowReference(field) =>
      (match OwnAddress(document, owner, field)
       case None => Unbindable(OwnerMissing)
       case Some(a) =>
         match ResolveField(document, index, a) case None => Unbindable(AddressUnknown) case Some(r) => Bound(SameRow(r.field)))
    case _ => Unbindable(IllTyped)
  }

  // bind_criterion_value: an operand that is one reference is not limited to numbers.
  function BindOperand(sp: Spelling, document: Document, index: AddressIndex, owner: FieldRef, e: Unbound): Bound<Expression>
    decreases e, 2
  {
    match e
    case CellReference(a) =>
      (match BindScalar(document, index, a) case Unbindable(failure) => Unbindable(failure) case Bound(r) => Bound(Reference(r)))
    case SameRowReference(field) =>
      (match OwnAddress(document, owner, field)
       case None => Unbindable(OwnerMissing)
       case Some(a) =>
         match BindScalar(document, index, a) case Unbindable(failure) => Unbindable(failure) case Bound(r) => Bound(SameRow(r.field)))
    case _ => BindNode(sp, document, index, owner, e)
  }

  // bind_node.
  function BindNode(sp: Spelling, document: Document, index: AddressIndex, owner: FieldRef, e: Unbound): Bound<Expression>
    decreases e, 1
  {
    match e
    case NumberLiteral(number) => Bound(Literal(number))
    case CellReference(a) =>
      (match BindNumeric(document, index, a) case Unbindable(failure) => Unbindable(failure) case Bound(r) => Bound(Reference(r)))
    case SameRowReference(field) =>
      (match OwnAddress(document, owner, field)
       case None => Unbindable(OwnerMissing)
       case Some(a) =>
         match BindNumeric(document, index, a) case Unbindable(failure) => Unbindable(failure) case Bound(r) => Bound(SameRow(r.field)))
    case TotalOf(a) =>
      (match BindColumn(document, index, a) case Unbindable(failure) => Unbindable(failure) case Bound(k) => Bound(ColumnTotal(k)))
    case AggregateOf(kind, a) =>
      (match BindColumn(document, index, a)
       case Unbindable(failure) => Unbindable(failure)
       case Bound(k) => Bound(ColumnAggregate(kind, k)))
    case ConditionalOf(aggregate, criteria) =>
      (match BindCriteria(sp, document, index, owner, criteria, None, e)
       case Unbindable(failure) => Unbindable(failure)
       case Bound(bound) =>
         match BindAggregate(document, index, aggregate, bound)
         case Unbindable(failure) => Unbindable(failure)
         case Bound(value) => Bound(ColumnConditional(value, bound)))
    case InfixOf(operator, left, right) =>
      (match BindNode(sp, document, index, owner, left)
       case Unbindable(failure) => Unbindable(failure)
       case Bound(l) =>
         match BindNode(sp, document, index, owner, right)
         case Unbindable(failure) => Unbindable(failure)
         case Bound(r) => Bound(InfixNode(operator, l, r)))
    case ExtremeOf(minimum, left, right) =>
      (match BindNode(sp, document, index, owner, left)
       case Unbindable(failure) => Unbindable(failure)
       case Bound(l) =>
         match BindNode(sp, document, index, owner, right)
         case Unbindable(failure) => Unbindable(failure)
         case Bound(r) => Bound(Binary(if minimum then Smaller else Larger, l, r)))
    case IfOf(condition, thenValue, elseValue) =>
      (match BindNode(sp, document, index, owner, condition)
       case Unbindable(failure) => Unbindable(failure)
       case Bound(c) =>
         match BindNode(sp, document, index, owner, thenValue)
         case Unbindable(failure) => Unbindable(failure)
         case Bound(t) =>
           match BindNode(sp, document, index, owner, elseValue)
           case Unbindable(failure) => Unbindable(failure)
           case Bound(f) => Bound(If(c, t, f)))
    case LogicalOf(connective, arguments) =>
      (match BindAll(sp, document, index, owner, arguments, e)
       case Unbindable(failure) => Unbindable(failure)
       case Bound(bound) => Bound(Logical(connective, bound)))
    case NotOf(operand) =>
      (match BindNode(sp, document, index, owner, operand)
       case Unbindable(failure) => Unbindable(failure)
       case Bound(o) => Bound(Not(o)))
    case RoundOf(operand, digits) =>
      (match BindNode(sp, document, index, owner, operand)
       case Unbindable(failure) => Unbindable(failure)
       case Bound(o) =>
         match BindDigits(sp, digits)
         case Unbindable(failure) => Unbindable(failure)
         case Bound(d) => Bound(Round(o, d)))
    case BlankOf(operand) =>
      (match BindBlank(document, index, owner, operand)
       case Unbindable(failure) => Unbindable(failure)
       case Bound(o) => Bound(IsBlank(o)))
  }

  function InfixNode(operator: InfixOperator, left: Expression, right: Expression): Expression {
    match operator
    case Add => Binary(Plus, left, right)
    case Subtract => Binary(Minus, left, right)
    case Multiply => Binary(Times, left, right)
    case Divide => Binary(Over, left, right)
    case Relation(comparison) => Compare(comparison, left, right)
  }

  function BindAll(
    sp: Spelling, document: Document, index: AddressIndex, owner: FieldRef, nodes: seq<Unbound>, ghost parent: Unbound
  ): Bound<seq<Expression>>
    requires forall c :: c in nodes ==> c < parent
    decreases parent, 0, |nodes|
  {
    if nodes == [] then Bound([])
    else
      assert nodes[0] in nodes && forall c :: c in nodes[1..] ==> c in nodes;
      match BindNode(sp, document, index, owner, nodes[0])
      case Unbindable(failure) => Unbindable(failure)
      case Bound(first) =>
        match BindAll(sp, document, index, owner, nodes[1..], parent)
        case Unbindable(failure) => Unbindable(failure)
        case Bound(rest) => Bound([first] + rest)
  }

  // The criteria in order; all their columns must belong to one schema.
  function BindCriteria(
    sp: Spelling, document: Document, index: AddressIndex, owner: FieldRef, criteria: seq<UnboundCriterion>,
    schema: Option<SchemaId>, ghost parent: Unbound
  ): Bound<seq<ColumnCriterion>>
    requires forall k :: k in criteria && k.operand.Some? ==> k.operand.value < parent
    decreases parent, 0, |criteria|
  {
    if criteria == [] then Bound([])
    else
      assert criteria[0] in criteria && forall k :: k in criteria[1..] ==> k in criteria;
      match BindCriterionColumn(document, index, criteria[0].column)
      case Unbindable(failure) => Unbindable(failure)
      case Bound(column) =>
        if schema.Some? && schema.value != column.schema then Unbindable(IllTyped)
        else match BindTestOperand(sp, document, index, owner, criteria[0].operand, parent)
          case Unbindable(failure) => Unbindable(failure)
          case Bound(operand) =>
            match BindCriteria(sp, document, index, owner, criteria[1..], Some(column.schema), parent)
            case Unbindable(failure) => Unbindable(failure)
            case Bound(rest) => Bound([ColumnCriterion(column, criteria[0].operator, operand)] + rest)
  }

  function BindTestOperand(
    sp: Spelling, document: Document, index: AddressIndex, owner: FieldRef, operand: Option<Unbound>, ghost parent: Unbound
  ): Bound<Option<Expression>>
    requires operand.Some? ==> operand.value < parent
    decreases parent, 0, 0
  {
    match operand
    case None => Bound(None)
    case Some(e) =>
      match BindOperand(sp, document, index, owner, e)
      case Unbindable(failure) => Unbindable(failure)
      case Bound(o) => Bound(Some(o))
  }

  // The value column, of the criteria's schema.
  function BindAggregate(document: Document, index: AddressIndex, aggregate: UnboundAggregate, criteria: seq<ColumnCriterion>):
      Bound<ConditionalAggregate>
  {
    if aggregate.CountMatches? then Bound(CountRows)
    else match BindColumn(document, index, aggregate.column)
      case Unbindable(failure) => Unbindable(failure)
      case Bound(k) =>
        if criteria != [] && criteria[0].column.schema != k.schema then Unbindable(IllTyped)
        else Bound(if aggregate.SumColumn? then SumOf(k) else AverageOf(k))
  }

  // bind_expression_with_index.
  method BindExpression(sp: Spelling, document: Document, index: AddressIndex, owner: FieldRef, e: Unbound) returns (r: Bound<Expression>)
    ensures r.Bound? <==>
      && NodeCount(e) <= MAX_NODES && Depth(e) <= MAX_DEPTH && |Format(sp, e)| <= MAX_INPUT
      && BindNode(sp, document, index, owner, e).Bound?
      && TypeOf(BindNode(sp, document, index, owner, e).value) == Some(NumberResult)
    ensures r.Bound? ==> r == BindNode(sp, document, index, owner, e)
  {
    var breached := ValidateStructure(sp, e);
    if breached.Some? {
      return Unbindable(TooComplex);
    }
    r := BindNode(sp, document, index, owner, e);
    if r.Bound? && TypeOf(r.value) != Some(NumberResult) {
      r := Unbindable(IllTyped);
    }
  }
}
