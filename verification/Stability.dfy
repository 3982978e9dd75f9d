/**
 Two evaluations that both succeed agree: field definitions and failures decide
 whether a formula has a value, never which.
 */
module Stability {
  import opened Model
  import opened Expressions
  import opened Criteria
  import opened Ordered
  import opened Evaluator
  import opened Locality

  // The same cell in both documents, with one value wherever both have one.
  ghost predicate AlikeCell(s: Snapshot, t: Snapshot, cell: FieldRef) {
    && (cell.entity in s.document.entities <==> cell.entity in t.document.entities)
    && Stored(s.document, cell) == Stored(t.document, cell)
    && (cell in s.values ==> Stored(s.document, cell).Some?) && (cell in t.values ==> Stored(t.document, cell).Some?)
    && (cell in s.values && cell in t.values ==> s.values[cell] == t.values[cell])
  }

  ghost predicate AlikeColumn(s: Snapshot, t: Snapshot, column: ColumnRef) {
    && Rows(s.document, column.schema) == Rows(t.document, column.schema)
    && forall row :: row in Rows(s.document, column.schema) ==> AlikeCell(s, t, FieldRef(row, column.field))
  }

  ghost predicate AlikeReads(s: Snapshot, t: Snapshot, owner: FieldRef, e: Expression) {
    && (forall c :: c in DirectReferences(owner, e) ==> AlikeCell(s, t, c))
    && (forall k :: k in Columns(e) ==> AlikeColumn(s, t, k))
  }

  // Two results that do not contradict each other.
  predicate Agree<T(==)>(a: Result<T>, b: Result<T>) {
    a.Ok? && b.Ok? ==> a.value == b.value
  }

  lemma AlikeReadsChild(s: Snapshot, t: Snapshot, owner: FieldRef, e: Expression, c: Expression)
    requires AlikeReads(s, t, owner, e) && c in Children(e)
    ensures AlikeReads(s, t, owner, c)
  {
    assert !IsCellReference(e);
    assert forall r :: r in DirectReferences(owner, c) ==> r in DirectReferences(owner, e);
    assert forall k :: k in Columns(c) ==> k in Columns(e);
  }

  lemma AlikeReference(rules: Rules, s: Snapshot, t: Snapshot, cell: FieldRef)
    requires AlikeCell(s, t, cell)
    ensures Agree(ReferenceValueOf(s, cell), ReferenceValueOf(t, cell))
    ensures Agree(ReferenceTest(rules, s, cell), ReferenceTest(rules, t, cell))
    ensures CellIsBlank(s.document, cell) == CellIsBlank(t.document, cell)
  {
    assert cell.entity in s.document.entities ==>
      (cell.field in s.document.entities[cell.entity].fields <==> Stored(s.document, cell).Some?);
    assert cell.entity in t.document.entities ==>
      (cell.field in t.document.entities[cell.entity].fields <==> Stored(t.document, cell).Some?);
  }

  // ---- Columns ----

  lemma {:induction false} AlikeNonBlank(s: Snapshot, t: Snapshot, rows: seq<EntityId>, field: FieldId)
    requires forall row :: row in rows ==> AlikeCell(s, t, FieldRef(row, field))
    ensures NonBlank(s.document, rows, field) == NonBlank(t.document, rows, field)
  {
    if rows != [] {
      assert rows == [rows[0]] + rows[1..];
      AlikeNonBlank(s, t, rows[1..], field);
    }
  }

  // The parts of a column read that its results rest on.
  predicate SamePresent(a: ColumnValues, b: ColumnValues) {
    a.firstMissing == None && b.firstMissing == None ==> a.present == b.present && a.total == b.total
  }

  lemma {:induction false} AlikeReadCells(
    rules: Rules, s: Snapshot, t: Snapshot, cells: seq<FieldRef>, a: ColumnValues, b: ColumnValues
  )
    requires (forall c :: c in cells ==> AlikeCell(s, t, c)) && SamePresent(a, b)
    ensures SamePresent(ReadCells(rules, s, cells, a), ReadCells(rules, t, cells, b))
  {
    if cells != [] {
      assert cells == [cells[0]] + cells[1..] && cells[0] in cells;
      var a', b' := ReadCell(rules, s, cells[0], a), ReadCell(rules, t, cells[0], b);
      AlikeReadCells(rules, s, t, cells[1..], a', b');
    }
  }

  lemma AlikeReadColumn(rules: Rules, s: Snapshot, t: Snapshot, column: ColumnRef)
    requires AlikeColumn(s, t, column)
    ensures SamePresent(ReadColumn(rules, s, column), ReadColumn(rules, t, column))
  {
    var rows := RowOrder(s.document, column.schema);
    AlikeNonBlank(s, t, rows, column.field);
    AlikeReadCells(rules, s, t, ColumnCells(s.document, column), NothingRead, NothingRead);
  }

  // ---- Conditional walks ----

  lemma {:induction false} AlikeRowMatches(
    rules: Rules, s: Snapshot, t: Snapshot, columns: seq<ColumnRef>, tests: seq<CriterionTest>, row: EntityId, k: nat
  )
    requires |columns| == |tests| && k <= |tests|
    requires forall i :: 0 <= i < |columns| ==> AlikeCell(s, t, FieldRef(row, columns[i].field))
    ensures Agree(RowMatches(rules, s, columns, tests, row, k), RowMatches(rules, t, columns, tests, row, k))
    decreases |tests| - k
  {
    if k < |tests| {
      assert AlikeCell(s, t, FieldRef(row, columns[k].field));
      AlikeRowMatches(rules, s, t, columns, tests, row, k + 1);
    }
  }

  ghost predicate AlikeWalk(s: Snapshot, t: Snapshot, aggregate: ConditionalAggregate, columns: seq<ColumnRef>)
    requires columns != []
  {
    && Rows(s.document, columns[0].schema) == Rows(t.document, columns[0].schema)
    && (forall i, row :: 0 <= i < |columns| && row in Rows(s.document, columns[0].schema) ==>
          AlikeCell(s, t, FieldRef(row, columns[i].field)))
    && (forall k, row :: k in ValueColumn(aggregate) && row in Rows(s.document, columns[0].schema) ==>
          AlikeCell(s, t, FieldRef(row, k.field)))
  }

  lemma AlikeRowValue(s: Snapshot, t: Snapshot, aggregate: ConditionalAggregate, row: EntityId)
    requires forall k :: k in ValueColumn(aggregate) ==> AlikeCell(s, t, FieldRef(row, k.field))
    ensures Agree(RowValue(s, aggregate, row), RowValue(t, aggregate, row))
  {
    if !aggregate.CountRows? {
      assert aggregate.column in ValueColumn(aggregate);
    }
  }

  lemma {:induction false} AlikeWalkRows(
    rules: Rules, s: Snapshot, t: Snapshot, aggregate: ConditionalAggregate, columns: seq<ColumnRef>,
    tests: seq<CriterionTest>, rows: seq<EntityId>, sofar: Matched
  )
    requires |columns| == |tests| && columns != [] && AlikeWalk(s, t, aggregate, columns)
    requires forall row :: row in rows ==> row in Rows(s.document, columns[0].schema)
    ensures Agree(WalkRows(rules, s, aggregate, columns, tests, rows, sofar),
                  WalkRows(rules, t, aggregate, columns, tests, rows, sofar))
    decreases |rows|
  {
    if rows != [] {
      assert rows == [rows[0]] + rows[1..];
      assert rows[0] in Rows(s.document, columns[0].schema);
      AlikeRowMatches(rules, s, t, columns, tests, rows[0], 0);
      AlikeRowValue(s, t, aggregate, rows[0]);
      var next := WalkRow(rules, s, aggregate, columns, tests, rows[0], sofar);
      var other := WalkRow(rules, t, aggregate, columns, tests, rows[0], sofar);
      assert Agree(next, other);
      if next.Ok? && other.Ok? {
        AlikeWalkRows(rules, s, t, aggregate, columns, tests, rows[1..], next.value);
      }
    }
  }

  lemma AlikeConditional(
    rules: Rules, s: Snapshot, t: Snapshot, aggregate: ConditionalAggregate, columns: seq<ColumnRef>, tests: seq<CriterionTest>
  )
    requires |columns| == |tests| && columns != [] && AlikeWalk(s, t, aggregate, columns)
    ensures Agree(ConditionalOf(rules, s, aggregate, columns, tests), ConditionalOf(rules, t, aggregate, columns, tests))
  {
    AlikeWalkRows(rules, s, t, aggregate, columns, tests, RowOrder(s.document, columns[0].schema), Matched(0, []));
  }

  lemma AlikeDeclaredWalk(s: Snapshot, t: Snapshot, e: Expression)
    requires e.ColumnConditional? && e.criteria != [] && NodeDeclares(e)
    requires forall k :: k in OwnColumns(e) ==> AlikeColumn(s, t, k)
    ensures AlikeWalk(s, t, e.aggregate, CriterionColumns(e.criteria))
  {
    var columns := CriterionColumns(e.criteria);
    var schema := columns[0].schema;
    assert ColumnRef(schema, e.criteria[0].column.field) in OwnColumns(e);
    forall i, row | 0 <= i < |columns| && row in Rows(s.document, schema)
      ensures AlikeCell(s, t, FieldRef(row, columns[i].field))
    {
      assert ColumnRef(schema, e.criteria[i].column.field) in OwnColumns(e);
      assert AlikeColumn(s, t, ColumnRef(schema, e.criteria[i].column.field));
    }
    forall k, row | k in ValueColumn(e.aggregate) && row in Rows(s.document, schema)
      ensures AlikeCell(s, t, FieldRef(row, k.field))
    {
      assert ColumnRef(schema, k.field) in OwnColumns(e);
      assert AlikeColumn(s, t, ColumnRef(schema, k.field));
    }
  }

  // ---- Every expression ----

  ghost predicate AlikeOperand(s: Snapshot, t: Snapshot, owner: FieldRef, k: ColumnCriterion, parent: Expression) {
    k.operand.Some? ==> k.operand.value < parent && AlikeReads(s, t, owner, k.operand.value) && Declares(k.operand.value)
  }

  lemma {:induction false} AlikeTest(rules: Rules, s: Snapshot, t: Snapshot, owner: FieldRef, k: ColumnCriterion, parent: Expression)
    requires AlikeOperand(s, t, owner, k, parent)
    ensures Agree(TestOf(rules, s, owner, k, parent), TestOf(rules, t, owner, k, parent))
    decreases parent, 0, 0
  {
    if k.operand.Some? {
      var e := k.operand.value;
      NumbersAgree(rules, s, t, owner, e);
      if IsCellReference(e) {
        assert Target(owner, e) in DirectReferences(owner, e);
        AlikeReference(rules, s, t, Target(owner, e));
      }
    }
  }

  lemma {:induction false} AlikeTests(
    rules: Rules, s: Snapshot, t: Snapshot, owner: FieldRef, criteria: seq<ColumnCriterion>, parent: Expression
  )
    requires forall k :: k in criteria && k.operand.Some? ==> k.operand.value < parent
    requires forall k :: k in criteria ==> AlikeOperand(s, t, owner, k, parent)
    ensures Agree(TestsOf(rules, s, owner, criteria, parent), TestsOf(rules, t, owner, criteria, parent))
    decreases parent, 0, |criteria|
  {
    if criteria != [] {
      assert criteria[0] in criteria && forall l :: l in criteria[1..] ==> l in criteria;
      AlikeTest(rules, s, t, owner, criteria[0], parent);
      AlikeTests(rules, s, t, owner, criteria[1..], parent);
    }
  }

  lemma {:induction false} AlikeConditions(
    rules: Rules, s: Snapshot, t: Snapshot, owner: FieldRef, connective: Connective, arguments: seq<Expression>,
    sofar: bool, parent: Expression
  )
    requires forall c :: c in arguments ==> c < parent && AlikeReads(s, t, owner, c) && Declares(c)
    ensures Agree(ConditionsOf(rules, s, owner, connective, arguments, sofar, parent),
                  ConditionsOf(rules, t, owner, connective, arguments, sofar, parent))
    decreases parent, 0, |arguments|
  {
    if arguments != [] {
      assert arguments[0] in arguments && forall c :: c in arguments[1..] ==> c in arguments;
      ConditionsAgree(rules, s, t, owner, arguments[0]);
      var first := ConditionOf(rules, s, owner, arguments[0]);
      if first.Ok? {
        AlikeConditions(rules, s, t, owner, connective, arguments[1..],
                        if connective.And? then sofar && first.value else sofar || first.value, parent);
      }
    }
  }

  lemma AlikeOperands(s: Snapshot, t: Snapshot, owner: FieldRef, e: Expression)
    requires AlikeReads(s, t, owner, e) && Declares(e) && e.ColumnConditional?
    ensures forall k :: k in e.criteria ==> AlikeOperand(s, t, owner, k, e)
  {
    forall k | k in e.criteria ensures AlikeOperand(s, t, owner, k, e) {
      var i :| 0 <= i < |e.criteria| && e.criteria[i] == k;
      if k.operand.Some? {
        assert k.operand.value in Children(e);
        AlikeReadsChild(s, t, owner, e, k.operand.value);
      }
    }
  }

  lemma {:induction false} ConditionalsAgree(rules: Rules, s: Snapshot, t: Snapshot, owner: FieldRef, e: Expression)
    requires e.ColumnConditional? && AlikeReads(s, t, owner, e) && Declares(e)
    ensures Agree(NumberOf(rules, s, owner, e), NumberOf(rules, t, owner, e))
    decreases e, 0
  {
    if e.criteria != [] {
      AlikeOperands(s, t, owner, e);
      forall k | k in e.criteria && k.operand.Some? ensures k.operand.value < e {
        assert AlikeOperand(s, t, owner, k, e);
      }
      AlikeTests(rules, s, t, owner, e.criteria, e);
      AlikeDeclaredWalk(s, t, e);
      var tests := TestsOf(rules, s, owner, e.criteria, e);
      if tests.Ok? {
        AlikeConditional(rules, s, t, e.aggregate, CriterionColumns(e.criteria), tests.value);
      }
    }
  }

  // Where both evaluations of a number succeed, they give one number.
  lemma {:induction false} NumbersAgree(rules: Rules, s: Snapshot, t: Snapshot, owner: FieldRef, e: Expression)
    requires AlikeReads(s, t, owner, e) && Declares(e)
    ensures Agree(NumberOf(rules, s, owner, e), NumberOf(rules, t, owner, e))
    decreases e, 1
  {
    forall c | c in Children(e) ensures AlikeReads(s, t, owner, c) && Declares(c) {
      AlikeReadsChild(s, t, owner, e, c);
    }
    match e {
      case Reference(reference) => AlikeReference(rules, s, t, reference);
      case SameRow(field) => AlikeReference(rules, s, t, FieldRef(owner.entity, field));
      case If(condition, thenValue, elseValue) =>
        assert Children(e) == [condition, thenValue, elseValue];
        assert condition in Children(e) && thenValue in Children(e) && elseValue in Children(e);
        ConditionsAgree(rules, s, t, owner, condition);
        NumbersAgree(rules, s, t, owner, thenValue);
        NumbersAgree(rules, s, t, owner, elseValue);
      case ColumnTotal(column) =>
        assert column in Columns(e);
        AlikeReadColumn(rules, s, t, column);
      case ColumnAggregate(_, column) =>
        assert column in Columns(e);
        AlikeReadColumn(rules, s, t, column);
      case ColumnConditional(_, _) => ConditionalsAgree(rules, s, t, owner, e);
      case Round(operand, _) =>
        assert operand in Children(e);
        NumbersAgree(rules, s, t, owner, operand);
      case Binary(_, left, right) =>
        assert Children(e) == [left, right];
        assert left in Children(e) && right in Children(e);
        NumbersAgree(rules, s, t, owner, left);
        NumbersAgree(rules, s, t, owner, right);
      case _ =>
    }
  }

  lemma {:induction false} ConditionsAgree(rules: Rules, s: Snapshot, t: Snapshot, owner: FieldRef, e: Expression)
    requires AlikeReads(s, t, owner, e) && Declares(e)
    ensures Agree(ConditionOf(rules, s, owner, e), ConditionOf(rules, t, owner, e))
    decreases e, 1
  {
    forall c | c in Children(e) ensures AlikeReads(s, t, owner, c) && Declares(c) {
      AlikeReadsChild(s, t, owner, e, c);
    }
    match e {
      case Compare(_, left, right) =>
        assert Children(e) == [left, right];
        assert left in Children(e) && right in Children(e);
        NumbersAgree(rules, s, t, owner, left);
        NumbersAgree(rules, s, t, owner, right);
      case Logical(connective, arguments) =>
        AlikeConditions(rules, s, t, owner, connective, arguments, connective.And?, e);
      case Not(operand) =>
        assert operand in Children(e);
        ConditionsAgree(rules, s, t, owner, operand);
      case IsBlank(operand) =>
        assert operand in Children(e);
        if IsCellReference(operand) {
          assert Target(owner, operand) in DirectReferences(owner, operand);
          AlikeReference(rules, s, t, Target(owner, operand));
        }
      case _ =>
    }
  }
}
