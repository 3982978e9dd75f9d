/**
 An evaluation reads only the cells and columns its formula declares: two
 snapshots that agree there give the same outcome.
 */
module Locality {
  import opened Model
  import opened Expressions
  import opened Criteria
  import opened Ordered
  import opened Evaluator

  // Two snapshots agree on everything an evaluation may ask about a cell.
  ghost predicate SameCell(s: Snapshot, t: Snapshot, cell: FieldRef) {
    && (cell.entity in s.document.entities <==> cell.entity in t.document.entities)
    && (cell.entity in s.document.entities ==>
          s.document.entities[cell.entity].schema == t.document.entities[cell.entity].schema)
    && Stored(s.document, cell) == Stored(t.document, cell)
    && (cell in s.values <==> cell in t.values)
    && (cell in s.values ==> s.values[cell] == t.values[cell])
    && (cell in s.failures <==> cell in t.failures)
  }

  ghost predicate SameColumn(s: Snapshot, t: Snapshot, column: ColumnRef) {
    && Rows(s.document, column.schema) == Rows(t.document, column.schema)
    && forall row :: row in Rows(s.document, column.schema) ==> SameCell(s, t, FieldRef(row, column.field))
  }

  ghost predicate SameReads(s: Snapshot, t: Snapshot, owner: FieldRef, e: Expression) {
    && s.document.schemas == t.document.schemas
    && (forall c :: c in DirectReferences(owner, e) ==> SameCell(s, t, c))
    && (forall k :: k in Columns(e) ==> SameColumn(s, t, k))
  }

  // A conditional walks the rows of its first criterion's schema whatever
  // schema its other columns name, so those cells must be among its columns.
  predicate NodeDeclares(e: Expression) {
    e.ColumnConditional? && e.criteria != [] ==>
      var schema := e.criteria[0].column.schema;
      && (forall i :: 0 <= i < |e.criteria| ==> ColumnRef(schema, e.criteria[i].column.field) in OwnColumns(e))
      && (forall k :: k in ValueColumn(e.aggregate) ==> ColumnRef(schema, k.field) in OwnColumns(e))
  }

  // Every cell an evaluation may read is a declared dependency.
  predicate Declares(e: Expression) {
    NodeDeclares(e) && forall c :: c in Children(e) ==> Declares(c)
  }

  // The rule validation and binding enforce: one schema for all the columns.
  predicate OneSchema(e: Expression) {
    && (e.ColumnConditional? ==> forall k, l :: k in OwnColumns(e) && l in OwnColumns(e) ==> k.schema == l.schema)
    && forall c :: c in Children(e) ==> OneSchema(c)
  }

  lemma {:induction false} OneSchemaDeclares(e: Expression)
    requires OneSchema(e)
    ensures Declares(e)
  {
    if e.ColumnConditional? && e.criteria != [] {
      var first := e.criteria[0].column;
      assert first in OwnColumns(e);
      forall i | 0 <= i < |e.criteria| ensures ColumnRef(first.schema, e.criteria[i].column.field) in OwnColumns(e) {
        assert e.criteria[i].column in OwnColumns(e);
        assert ColumnRef(first.schema, e.criteria[i].column.field) == e.criteria[i].column;
      }
      forall k | k in ValueColumn(e.aggregate) ensures ColumnRef(first.schema, k.field) in OwnColumns(e) {
        assert k in OwnColumns(e);
        assert ColumnRef(first.schema, k.field) == k;
      }
    }
    forall c | c in Children(e) ensures Declares(c) {
      OneSchemaDeclares(c);
    }
  }

  // ---- Agreement of each part of an evaluation ----

  lemma SameReadsChild(s: Snapshot, t: Snapshot, owner: FieldRef, e: Expression, c: Expression)
    requires SameReads(s, t, owner, e) && c in Children(e)
    ensures SameReads(s, t, owner, c)
  {
    assert !IsCellReference(e);
    assert forall r :: r in DirectReferences(owner, c) ==> r in DirectReferences(owner, e);
    assert forall k :: k in Columns(c) ==> k in Columns(e);
  }

  lemma {:induction false} SameNonBlank(s: Snapshot, t: Snapshot, rows: seq<EntityId>, field: FieldId)
    requires forall row :: row in rows ==> SameCell(s, t, FieldRef(row, field))
    ensures NonBlank(s.document, rows, field) == NonBlank(t.document, rows, field)
  {
    if rows != [] {
      assert rows == [rows[0]] + rows[1..];
      SameNonBlank(s, t, rows[1..], field);
    }
  }

  lemma {:induction false} SameReadCells(rules: Rules, s: Snapshot, t: Snapshot, cells: seq<FieldRef>, read: ColumnValues)
    requires forall c :: c in cells ==> SameCell(s, t, c)
    ensures ReadCells(rules, s, cells, read) == ReadCells(rules, t, cells, read)
  {
    if cells != [] {
      assert cells == [cells[0]] + cells[1..] && cells[0] in cells;
      assert ReadCell(rules, s, cells[0], read) == ReadCell(rules, t, cells[0], read);
      SameReadCells(rules, s, t, cells[1..], ReadCell(rules, s, cells[0], read));
    }
  }

  lemma SameReadColumn(rules: Rules, s: Snapshot, t: Snapshot, column: ColumnRef)
    requires SameColumn(s, t, column)
    ensures ReadColumn(rules, s, column) == ReadColumn(rules, t, column)
  {
    var rows := RowOrder(s.document, column.schema);
    SameNonBlank(s, t, rows, column.field);
    SameReadCells(rules, s, t, ColumnCells(s.document, column), NothingRead);
  }

  lemma {:induction false} SameRowMatches(
    rules: Rules, s: Snapshot, t: Snapshot, columns: seq<ColumnRef>, tests: seq<CriterionTest>, row: EntityId, k: nat
  )
    requires |columns| == |tests| && k <= |tests|
    requires forall i :: 0 <= i < |columns| ==> SameCell(s, t, FieldRef(row, columns[i].field))
    ensures RowMatches(rules, s, columns, tests, row, k) == RowMatches(rules, t, columns, tests, row, k)
    decreases |tests| - k
  {
    if k < |tests| {
      SameRowMatches(rules, s, t, columns, tests, row, k + 1);
    }
  }

  // The snapshots agree on every cell a conditional's walk may read.
  ghost predicate SameWalk(s: Snapshot, t: Snapshot, aggregate: ConditionalAggregate, columns: seq<ColumnRef>)
    requires columns != []
  {
    && Rows(s.document, columns[0].schema) == Rows(t.document, columns[0].schema)
    && (forall i, row :: 0 <= i < |columns| && row in Rows(s.document, columns[0].schema) ==>
          SameCell(s, t, FieldRef(row, columns[i].field)))
    && (forall k, row :: k in ValueColumn(aggregate) && row in Rows(s.document, columns[0].schema) ==>
          SameCell(s, t, FieldRef(row, k.field)))
  }

  lemma {:induction false} SameWalkRows(
    rules: Rules, s: Snapshot, t: Snapshot, aggregate: ConditionalAggregate, columns: seq<ColumnRef>,
    tests: seq<CriterionTest>, rows: seq<EntityId>, sofar: Matched
  )
    requires |columns| == |tests| && columns != [] && SameWalk(s, t, aggregate, columns)
    requires forall row :: row in rows ==> row in Rows(s.document, columns[0].schema)
    ensures WalkRows(rules, s, aggregate, columns, tests, rows, sofar)
         == WalkRows(rules, t, aggregate, columns, tests, rows, sofar)
    decreases |rows|
  {
    if rows != [] {
      assert rows == [rows[0]] + rows[1..];
      assert rows[0] in Rows(s.document, columns[0].schema);
      SameRowMatches(rules, s, t, columns, tests, rows[0], 0);
      assert RowValue(s, aggregate, rows[0]) == RowValue(t, aggregate, rows[0]) by {
        if !aggregate.CountRows? { assert aggregate.column in ValueColumn(aggregate); }
      }
      var next := WalkRow(rules, s, aggregate, columns, tests, rows[0], sofar);
      if next.Ok? {
        SameWalkRows(rules, s, t, aggregate, columns, tests, rows[1..], next.value);
      }
    }
  }

  lemma SameConditional(
    rules: Rules, s: Snapshot, t: Snapshot, aggregate: ConditionalAggregate, columns: seq<ColumnRef>, tests: seq<CriterionTest>
  )
    requires |columns| == |tests| && columns != [] && SameWalk(s, t, aggregate, columns)
    ensures ConditionalOf(rules, s, aggregate, columns, tests) == ConditionalOf(rules, t, aggregate, columns, tests)
  {
    SameWalkRows(rules, s, t, aggregate, columns, tests, RowOrder(s.document, columns[0].schema), Matched(0, []));
  }

  // The snapshots agree on the columns a node itself declares.
  ghost predicate SameOwnColumns(s: Snapshot, t: Snapshot, e: Expression) {
    forall k :: k in OwnColumns(e) ==> SameColumn(s, t, k)
  }

  lemma DeclaredWalk(s: Snapshot, t: Snapshot, e: Expression)
    requires e.ColumnConditional? && e.criteria != [] && NodeDeclares(e) && SameOwnColumns(s, t, e)
    ensures SameWalk(s, t, e.aggregate, CriterionColumns(e.criteria))
  {
    var columns := CriterionColumns(e.criteria);
    var schema := columns[0].schema;
    assert ColumnRef(schema, e.criteria[0].column.field) in OwnColumns(e);
    forall i, row | 0 <= i < |columns| && row in Rows(s.document, schema)
      ensures SameCell(s, t, FieldRef(row, columns[i].field))
    {
      assert ColumnRef(schema, e.criteria[i].column.field) in OwnColumns(e);
      assert SameColumn(s, t, ColumnRef(schema, e.criteria[i].column.field));
    }
    forall k, row | k in ValueColumn(e.aggregate) && row in Rows(s.document, schema)
      ensures SameCell(s, t, FieldRef(row, k.field))
    {
      assert ColumnRef(schema, k.field) in OwnColumns(e);
      assert SameColumn(s, t, ColumnRef(schema, k.field));
    }
  }

  // ---- The declared columns suffice for exactly the nodes that declare their walk ----

  // The walk of a conditional comes out the same wherever the columns the node
  // declares do, for every choice of tests.
  ghost predicate WalkIsDeclared(rules: Rules, e: Expression)
    requires e.ColumnConditional? && e.criteria != []
  {
    var columns := CriterionColumns(e.criteria);
    forall s: Snapshot, t: Snapshot, tests: seq<CriterionTest> ::
      |tests| == |columns| && SameOwnColumns(s, t, e) ==>
      ConditionalOf(rules, s, e.aggregate, columns, tests) == ConditionalOf(rules, t, e.aggregate, columns, tests)
  }

  predicate WalksCriterion(columns: seq<ColumnRef>, field: FieldId) {
    exists i :: 0 <= i < |columns| && columns[i].field == field
  }

  predicate WalksValue(aggregate: ConditionalAggregate, field: FieldId) {
    !aggregate.CountRows? && aggregate.column.field == field
  }

  // One row with one cell, a formula, before and after it is evaluated.
  function OneCell(schema: SchemaId, field: FieldId): Document {
    Document(map[], map[0 := Entity("", schema, map[field := FormulaValue(Literal(Number(0)))])])
  }

  function Unsettled(schema: SchemaId, field: FieldId, failures: FailureMap): Snapshot {
    Snapshot(OneCell(schema, field), map[], failures)
  }

  function Settled(schema: SchemaId, field: FieldId): Snapshot {
    Snapshot(OneCell(schema, field), map[FieldRef(0, field) := Number(0)], map[])
  }

  function BlankTests(count: nat): seq<CriterionTest> {
    seq(count, _ => BlankTest(Equal))
  }

  lemma WalksFirst(first: ColumnRef, rest: seq<ColumnRef>, field: FieldId)
    ensures WalksCriterion([first] + rest, field) <==> first.field == field || WalksCriterion(rest, field)
  {
    var columns := [first] + rest;
    if first.field == field {
      assert columns[0].field == field;
    }
    if i :| 0 <= i < |rest| && rest[i].field == field {
      assert columns[i + 1].field == field;
    }
    if i :| 0 <= i < |columns| && columns[i].field == field {
      assert i > 0 ==> rest[i - 1].field == field;
    }
  }

  // The unsettled cell stops the row at the first criterion over its field; the
  // settled one decides it. Blank cells pass on the way there.
  lemma {:induction false} RowOfOneCell(
    rules: Rules, schema: SchemaId, field: FieldId, columns: seq<ColumnRef>, k: nat, failures: FailureMap
  )
    requires k <= |columns|
    ensures var tests := BlankTests(|columns|);
      && RowMatches(rules, Settled(schema, field), columns, tests, 0, k).Ok?
      && (WalksCriterion(columns[k..], field) ==>
            RowMatches(rules, Unsettled(schema, field, failures), columns, tests, 0, k) == Err(FailedDependencies({FieldRef(0, field)})))
      && (!WalksCriterion(columns[k..], field) ==>
            && RowMatches(rules, Unsettled(schema, field, failures), columns, tests, 0, k) == Ok(true)
            && RowMatches(rules, Settled(schema, field), columns, tests, 0, k) == Ok(true))
    decreases |columns| - k
  {
    if k < |columns| {
      RowOfOneCell(rules, schema, field, columns, k + 1, failures);
      assert columns[k..] == [columns[k]] + columns[k + 1..];
      WalksFirst(columns[k], columns[k + 1..], field);
      if columns[k].field != field {
        assert Matches(rules, BlankTest(Equal), None);
      }
    }
  }

  // A walk over an unsettled cell, failed or not, fails with that cell; over
  // the settled one it does not.
  lemma WalkOfOneCell(
    rules: Rules, aggregate: ConditionalAggregate, columns: seq<ColumnRef>, field: FieldId, failures: FailureMap
  )
    requires columns != [] && (WalksCriterion(columns, field) || WalksValue(aggregate, field))
    ensures var schema, tests, failed := columns[0].schema, BlankTests(|columns|), Err(FailedDependencies({FieldRef(0, field)}));
      && ConditionalOf(rules, Unsettled(schema, field, failures), aggregate, columns, tests) == failed
      && ConditionalOf(rules, Settled(schema, field), aggregate, columns, tests) != failed
  {
    var schema, tests := columns[0].schema, BlankTests(|columns|);
    assert columns[0..] == columns;
    RowOfOneCell(rules, schema, field, columns, 0, failures);
    assert Rows(OneCell(schema, field), schema) == {0};
    IncreasingIsUnique(Ascending({0}), [0]);
    assert [0][1..] == [];
    assert WalkRow(rules, Unsettled(schema, field, failures), aggregate, columns, tests, 0, Matched(0, []))
      == Err(FailedDependencies({FieldRef(0, field)}));
    assert WalkRow(rules, Settled(schema, field), aggregate, columns, tests, 0, Matched(0, [])).Ok?;
  }

  // Only the columns of one row are compared, so a field that no declared
  // column of its schema covers may differ.
  lemma UndeclaredIsFree(e: Expression, schema: SchemaId, field: FieldId)
    requires ColumnRef(schema, field) !in OwnColumns(e)
    ensures SameOwnColumns(Unsettled(schema, field, map[]), Settled(schema, field), e)
  {
  }

  lemma UndeclaredWalk(rules: Rules, e: Expression, field: FieldId)
    requires e.ColumnConditional? && e.criteria != []
    requires ColumnRef(e.criteria[0].column.schema, field) !in OwnColumns(e)
    requires WalksCriterion(CriterionColumns(e.criteria), field) || WalksValue(e.aggregate, field)
    ensures !WalkIsDeclared(rules, e)
  {
    var columns := CriterionColumns(e.criteria);
    var schema := columns[0].schema;
    var s, t, tests := Unsettled(schema, field, map[]), Settled(schema, field), BlankTests(|columns|);
    UndeclaredIsFree(e, schema, field);
    WalkOfOneCell(rules, e.aggregate, columns, field, map[]);
    assert |tests| == |columns| && SameOwnColumns(s, t, e);
  }

  lemma UndeclaredField(e: Expression) returns (field: FieldId)
    requires e.ColumnConditional? && e.criteria != [] && !NodeDeclares(e)
    ensures ColumnRef(e.criteria[0].column.schema, field) !in OwnColumns(e)
    ensures WalksCriterion(CriterionColumns(e.criteria), field) || WalksValue(e.aggregate, field)
  {
    var columns, schema := CriterionColumns(e.criteria), e.criteria[0].column.schema;
    if i :| 0 <= i < |e.criteria| && ColumnRef(schema, e.criteria[i].column.field) !in OwnColumns(e) {
      assert columns[i].field == e.criteria[i].column.field;
      field := e.criteria[i].column.field;
    } else {
      var k :| k in ValueColumn(e.aggregate) && ColumnRef(schema, k.field) !in OwnColumns(e);
      field := k.field;
    }
  }

  // The declared columns decide what the evaluator's walk computes if and only
  // if each column the walk reads, taken in the first criterion's schema, is
  // one of them.
  lemma NodeDeclaresIsExact(rules: Rules, e: Expression)
    requires e.ColumnConditional? && e.criteria != []
    ensures NodeDeclares(e) <==> WalkIsDeclared(rules, e)
  {
    var columns := CriterionColumns(e.criteria);
    if NodeDeclares(e) {
      forall s: Snapshot, t: Snapshot, tests: seq<CriterionTest> | |tests| == |columns| && SameOwnColumns(s, t, e)
        ensures ConditionalOf(rules, s, e.aggregate, columns, tests) == ConditionalOf(rules, t, e.aggregate, columns, tests)
      {
        DeclaredWalk(s, t, e);
        SameConditional(rules, s, t, e.aggregate, columns, tests);
      }
    } else {
      var field := UndeclaredField(e);
      UndeclaredWalk(rules, e, field);
    }
  }

  lemma SameReference(s: Snapshot, t: Snapshot, cell: FieldRef)
    requires s.document.schemas == t.document.schemas && SameCell(s, t, cell)
    ensures ReferenceValueOf(s, cell) == ReferenceValueOf(t, cell)
    ensures CellIsBlank(s.document, cell) == CellIsBlank(t.document, cell)
    ensures forall rules :: ReferenceTest(rules, s, cell) == ReferenceTest(rules, t, cell)
  {
  }

  lemma {:induction false} SameTests(
    rules: Rules, s: Snapshot, t: Snapshot, owner: FieldRef, criteria: seq<ColumnCriterion>, parent: Expression
  )
    requires forall k :: k in criteria && k.operand.Some? ==>
      k.operand.value < parent && SameReads(s, t, owner, k.operand.value) && Declares(k.operand.value)
    ensures TestsOf(rules, s, owner, criteria, parent) == TestsOf(rules, t, owner, criteria, parent)
    decreases parent, 0, |criteria|
  {
    if criteria != [] {
      var k := criteria[0];
      assert k in criteria && forall l :: l in criteria[1..] ==> l in criteria;
      if k.operand.Some? {
        var e := k.operand.value;
        SameNumber(rules, s, t, owner, e);
        if IsCellReference(e) { SameReference(s, t, Target(owner, e)); }
      }
      SameTests(rules, s, t, owner, criteria[1..], parent);
    }
  }

  lemma {:induction false} SameConditions(
    rules: Rules, s: Snapshot, t: Snapshot, owner: FieldRef, connective: Connective, arguments: seq<Expression>,
    sofar: bool, parent: Expression
  )
    requires forall c :: c in arguments ==> c < parent && SameReads(s, t, owner, c) && Declares(c)
    ensures ConditionsOf(rules, s, owner, connective, arguments, sofar, parent)
         == ConditionsOf(rules, t, owner, connective, arguments, sofar, parent)
    decreases parent, 0, |arguments|
  {
    if arguments != [] {
      assert arguments[0] in arguments && forall c :: c in arguments[1..] ==> c in arguments;
      SameCondition(rules, s, t, owner, arguments[0]);
      var first := ConditionOf(rules, s, owner, arguments[0]);
      if first.Ok? {
        SameConditions(rules, s, t, owner, connective, arguments[1..],
                       if connective.And? then sofar && first.value else sofar || first.value, parent);
      }
    }
  }

  lemma SameOperands(s: Snapshot, t: Snapshot, owner: FieldRef, e: Expression)
    requires SameReads(s, t, owner, e) && Declares(e) && e.ColumnConditional?
    ensures forall k :: k in e.criteria && k.operand.Some? ==>
      k.operand.value < e && SameReads(s, t, owner, k.operand.value) && Declares(k.operand.value)
  {
    forall k | k in e.criteria && k.operand.Some?
      ensures k.operand.value < e && SameReads(s, t, owner, k.operand.value) && Declares(k.operand.value)
    {
      var i :| 0 <= i < |e.criteria| && e.criteria[i] == k;
      assert k.operand.value in Children(e);
      SameReadsChild(s, t, owner, e, k.operand.value);
    }
  }

  lemma {:induction false} SameNumber(rules: Rules, s: Snapshot, t: Snapshot, owner: FieldRef, e: Expression)
    requires SameReads(s, t, owner, e) && Declares(e)
    ensures NumberOf(rules, s, owner, e) == NumberOf(rules, t, owner, e)
    decreases e, 1
  {
    forall c | c in Children(e) ensures SameReads(s, t, owner, c) && Declares(c) {
      SameReadsChild(s, t, owner, e, c);
    }
    match e {
      case Reference(reference) => SameReference(s, t, reference);
      case SameRow(field) => SameReference(s, t, FieldRef(owner.entity, field));
      case If(condition, thenValue, elseValue) =>
        assert Children(e) == [condition, thenValue, elseValue];
        assert condition in Children(e) && thenValue in Children(e) && elseValue in Children(e);
        SameCondition(rules, s, t, owner, condition);
        SameNumber(rules, s, t, owner, thenValue);
        SameNumber(rules, s, t, owner, elseValue);
      case ColumnTotal(column) =>
        assert column in Columns(e);
        SameReadColumn(rules, s, t, column);
      case ColumnAggregate(_, column) =>
        assert column in Columns(e);
        SameReadColumn(rules, s, t, column);
      case ColumnConditional(aggregate, criteria) =>
        if criteria != [] {
          SameOperands(s, t, owner, e);
          SameTests(rules, s, t, owner, criteria, e);
          DeclaredWalk(s, t, e);
          var tests := TestsOf(rules, s, owner, criteria, e);
          if tests.Ok? { SameConditional(rules, s, t, aggregate, CriterionColumns(criteria), tests.value); }
        }
      case Round(operand, _) =>
        assert operand in Children(e);
        SameNumber(rules, s, t, owner, operand);
      case Binary(_, left, right) =>
        assert Children(e) == [left, right];
        assert left in Children(e) && right in Children(e);
        SameNumber(rules, s, t, owner, left);
        SameNumber(rules, s, t, owner, right);
      case _ =>
    }
  }

  lemma {:induction false} SameCondition(rules: Rules, s: Snapshot, t: Snapshot, owner: FieldRef, e: Expression)
    requires SameReads(s, t, owner, e) && Declares(e)
    ensures ConditionOf(rules, s, owner, e) == ConditionOf(rules, t, owner, e)
    decreases e, 1
  {
    forall c | c in Children(e) ensures SameReads(s, t, owner, c) && Declares(c) {
      SameReadsChild(s, t, owner, e, c);
    }
    match e {
      case Compare(_, left, right) =>
        assert Children(e) == [left, right];
        assert left in Children(e) && right in Children(e);
        SameNumber(rules, s, t, owner, left);
        SameNumber(rules, s, t, owner, right);
      case Logical(connective, arguments) =>
        SameConditions(rules, s, t, owner, connective, arguments, connective.And?, e);
      case Not(operand) =>
        assert operand in Children(e);
        SameCondition(rules, s, t, owner, operand);
      case IsBlank(operand) =>
        assert operand in Children(e);
        if IsCellReference(operand) {
          assert Target(owner, operand) in DirectReferences(owner, operand);
          SameReference(s, t, Target(owner, operand));
        }
      case _ =>
    }
  }

  ghost predicate SameFailed(rules: Rules, s: Snapshot, t: Snapshot, owner: FieldRef, e: Expression) {
    FailedRequired(rules, s, owner, e) == FailedRequired(rules, t, owner, e)
  }

  lemma SameFailedIf(rules: Rules, s: Snapshot, t: Snapshot, owner: FieldRef, e: Expression)
    requires e.If? && ConditionOf(rules, s, owner, e.condition) == ConditionOf(rules, t, owner, e.condition)
    requires SameFailed(rules, s, t, owner, e.condition)
    requires SameFailed(rules, s, t, owner, e.thenValue) && SameFailed(rules, s, t, owner, e.elseValue)
    ensures SameFailed(rules, s, t, owner, e)
  {
  }

  lemma {:induction false} SameFailedRequired(rules: Rules, s: Snapshot, t: Snapshot, owner: FieldRef, e: Expression)
    requires SameReads(s, t, owner, e) && Declares(e)
    ensures SameFailed(rules, s, t, owner, e)
  {
    if IsCellReference(e) {
      assert Target(owner, e) in DirectReferences(owner, e);
    } else if !e.IsBlank? {
      forall c | c in Children(e) ensures SameFailed(rules, s, t, owner, c) {
        SameReadsChild(s, t, owner, e, c);
        SameFailedRequired(rules, s, t, owner, c);
      }
      if e.If? {
        assert Children(e) == [e.condition, e.thenValue, e.elseValue];
        assert e.condition in Children(e) && e.thenValue in Children(e) && e.elseValue in Children(e);
        SameReadsChild(s, t, owner, e, e.condition);
        SameCondition(rules, s, t, owner, e.condition);
        SameFailedIf(rules, s, t, owner, e);
      } else {
        forall k | k in OwnColumns(e) ensures FirstFailed(rules, s, k) == FirstFailed(rules, t, k) {
          assert k in Columns(e);
          SameReadColumn(rules, s, t, k);
        }
      }
    }
  }

  // Two snapshots that agree on a formula's declared reads give it one outcome.
  lemma SameOutcome(rules: Rules, s: Snapshot, t: Snapshot, owner: FieldRef, e: Expression)
    requires SameReads(s, t, owner, e) && Declares(e)
    ensures FormulaOutcome(rules, s, owner, e) == FormulaOutcome(rules, t, owner, e)
  {
    SameFailedRequired(rules, s, t, owner, e);
    SameNumber(rules, s, t, owner, e);
  }
}
