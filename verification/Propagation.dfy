/**
 Failure propagation follows the branches an evaluation takes: when no failed
 cell is required, no failed cell is read and none is blamed.
 */
module Propagation {
  import opened Model
  import opened Expressions
  import opened Criteria
  import opened Ordered
  import opened Evaluator
  import opened Locality
  import opened DependencyGraphs

  ghost predicate FailuresAreStored(s: Snapshot) {
    forall c :: c in s.failures ==> Stored(s.document, c).Some?
  }

  // Two snapshots that may differ only in what they hold at failed cells.
  ghost predicate AgreeOffFailed(s: Snapshot, t: Snapshot) {
    && s.document == t.document && s.failures == t.failures
    && forall c :: c !in s.failures ==> (c in s.values <==> c in t.values) && (c in s.values ==> s.values[c] == t.values[c])
  }

  // A result that blames dependencies blames only these.
  ghost predicate Blames<T>(r: Result<T>, cells: set<FieldRef>) {
    r.Err? && r.failure.FailedDependencies? ==> r.failure.dependencies <= cells
  }

  // The declared reads that have not failed.
  ghost function LiveReads(s: Snapshot, owner: FieldRef, e: Expression): set<FieldRef> {
    Dependencies(s.document, owner, e) - s.failures.Keys
  }

  lemma ChildDependencies(document: Document, owner: FieldRef, e: Expression, c: Expression)
    requires c in Children(e)
    ensures Dependencies(document, owner, c) <= Dependencies(document, owner, e)
  {
    assert !IsCellReference(e);
    assert forall r :: r in DirectReferences(owner, c) ==> r in DirectReferences(owner, e);
    assert forall k :: k in Columns(c) ==> k in Columns(e);
  }

  lemma ChildLiveReads(s: Snapshot, owner: FieldRef, e: Expression, c: Expression)
    requires c in Children(e)
    ensures LiveReads(s, owner, c) <= LiveReads(s, owner, e)
  {
    ChildDependencies(s.document, owner, e, c);
  }

  lemma BlamesMore<T>(r: Result<T>, few: set<FieldRef>, many: set<FieldRef>)
    requires Blames(r, few) && few <= many
    ensures Blames(r, many)
  {
  }

  lemma LiveCell(s: Snapshot, t: Snapshot, c: FieldRef)
    requires AgreeOffFailed(s, t) && c !in s.failures
    ensures SameCell(s, t, c)
  {
  }

  // ---- Columns ----

  lemma {:induction false} FirstFailedIsFirst(rules: Rules, s: Snapshot, cells: seq<FieldRef>, read: ColumnValues)
    ensures ReadCells(rules, s, cells, read).firstFailed == None <==>
      read.firstFailed == None && forall c :: c in cells ==> c !in s.failures
  {
    if cells != [] {
      FirstFailedIsFirst(rules, s, cells[1..], ReadCell(rules, s, cells[0], read));
      assert cells == [cells[0]] + cells[1..];
    }
  }

  lemma {:induction false} FirstMissingIsRead(rules: Rules, s: Snapshot, cells: seq<FieldRef>, read: ColumnValues)
    ensures var last := ReadCells(rules, s, cells, read).firstMissing;
      last.Some? ==> last == read.firstMissing || last.value in cells
  {
    if cells != [] {
      FirstMissingIsRead(rules, s, cells[1..], ReadCell(rules, s, cells[0], read));
      assert cells == [cells[0]] + cells[1..];
    }
  }

  lemma {:induction false} NonBlankHasAll(document: Document, rows: seq<EntityId>, field: FieldId, row: EntityId)
    requires row in rows && Stored(document, FieldRef(row, field)).Some?
    ensures FieldRef(row, field) in NonBlank(document, rows, field)
  {
    assert rows == [rows[0]] + rows[1..];
    if row != rows[0] {
      NonBlankHasAll(document, rows[1..], field, row);
    }
  }

  // A column without a first failed cell has no failed cell.
  lemma LiveColumn(rules: Rules, s: Snapshot, t: Snapshot, k: ColumnRef)
    requires FailuresAreStored(s) && AgreeOffFailed(s, t) && FirstFailed(rules, s, k) == {}
    ensures SameColumn(s, t, k) && Slots(s.document, k) !! s.failures.Keys
  {
    FirstFailedIsFirst(rules, s, ColumnCells(s.document, k), NothingRead);
    forall row | row in Rows(s.document, k.schema)
      ensures FieldRef(row, k.field) !in s.failures && SameCell(s, t, FieldRef(row, k.field))
    {
      if FieldRef(row, k.field) in s.failures {
        NonBlankHasAll(s.document, RowOrder(s.document, k.schema), k.field, row);
        assert false;
      }
    }
  }

  lemma ColumnBlames(rules: Rules, s: Snapshot, k: ColumnRef, kind: ColumnAggregateFunction)
    ensures Blames(TotalOf(ReadColumn(rules, s, k)), Slots(s.document, k))
    ensures Blames(AggregateOf(rules, kind, ReadColumn(rules, s, k)), Slots(s.document, k))
  {
    FirstMissingIsRead(rules, s, ColumnCells(s.document, k), NothingRead);
  }

  lemma LiveSlots(s: Snapshot, owner: FieldRef, e: Expression, k: ColumnRef)
    requires k in OwnColumns(e) && Slots(s.document, k) !! s.failures.Keys
    ensures Slots(s.document, k) <= LiveReads(s, owner, e)
  {
    assert k in Columns(e);
  }

  // ---- Conditional walks ----

  ghost predicate WalkBlames(s: Snapshot, columns: seq<ColumnRef>, aggregate: ConditionalAggregate, rows: seq<EntityId>, cells: set<FieldRef>) {
    && (forall i, row :: 0 <= i < |columns| && row in rows ==> FieldRef(row, columns[i].field) in cells)
    && (forall k, row :: k in ValueColumn(aggregate) && row in rows ==> FieldRef(row, k.field) in cells)
  }

  lemma {:induction false} RowBlames(
    rules: Rules, s: Snapshot, columns: seq<ColumnRef>, tests: seq<CriterionTest>, row: EntityId, k: nat, cells: set<FieldRef>
  )
    requires |columns| == |tests| && k <= |tests|
    requires forall i :: 0 <= i < |columns| ==> FieldRef(row, columns[i].field) in cells
    ensures Blames(RowMatches(rules, s, columns, tests, row, k), cells)
    decreases |tests| - k
  {
    if k < |tests| {
      RowBlames(rules, s, columns, tests, row, k + 1, cells);
    }
  }

  lemma {:induction false} RowsBlame(
    rules: Rules, s: Snapshot, aggregate: ConditionalAggregate, columns: seq<ColumnRef>, tests: seq<CriterionTest>,
    rows: seq<EntityId>, sofar: Matched, cells: set<FieldRef>
  )
    requires |columns| == |tests| && WalkBlames(s, columns, aggregate, rows, cells)
    ensures Blames(WalkRows(rules, s, aggregate, columns, tests, rows, sofar), cells)
    decreases |rows|
  {
    if rows != [] {
      assert rows[0] in rows && forall row :: row in rows[1..] ==> row in rows;
      RowBlames(rules, s, columns, tests, rows[0], 0, cells);
      if !aggregate.CountRows? { assert aggregate.column in ValueColumn(aggregate); }
      var next := WalkRow(rules, s, aggregate, columns, tests, rows[0], sofar);
      if next.Ok? {
        RowsBlame(rules, s, aggregate, columns, tests, rows[1..], next.value, cells);
      }
    }
  }

  // A conditional none of whose columns has a failed cell.
  lemma LiveConditional(rules: Rules, s: Snapshot, t: Snapshot, owner: FieldRef, e: Expression, tests: seq<CriterionTest>)
    requires e.ColumnConditional? && e.criteria != [] && NodeDeclares(e) && |tests| == |e.criteria|
    requires FailuresAreStored(s) && AgreeOffFailed(s, t)
    requires forall k :: k in OwnColumns(e) ==> FirstFailed(rules, s, k) == {}
    ensures var columns := CriterionColumns(e.criteria);
      && ConditionalOf(rules, s, e.aggregate, columns, tests) == ConditionalOf(rules, t, e.aggregate, columns, tests)
      && Blames(ConditionalOf(rules, s, e.aggregate, columns, tests), LiveReads(s, owner, e))
  {
    var columns := CriterionColumns(e.criteria);
    forall k | k in OwnColumns(e) ensures LiveAt(s, t, k, LiveReads(s, owner, e)) {
      LiveColumn(rules, s, t, k);
      LiveSlots(s, owner, e, k);
    }
    LiveWalk(s, t, e, LiveReads(s, owner, e));
    SameConditional(rules, s, t, e.aggregate, columns, tests);
    ConditionalBlames(rules, s, e.aggregate, columns, tests, LiveReads(s, owner, e));
  }

  lemma ConditionalBlames(
    rules: Rules, s: Snapshot, aggregate: ConditionalAggregate, columns: seq<ColumnRef>, tests: seq<CriterionTest>, cells: set<FieldRef>
  )
    requires |columns| == |tests| && columns != []
    requires WalkBlames(s, columns, aggregate, RowOrder(s.document, columns[0].schema), cells)
    ensures Blames(ConditionalOf(rules, s, aggregate, columns, tests), cells)
  {
    RowsBlame(rules, s, aggregate, columns, tests, RowOrder(s.document, columns[0].schema), Matched(0, []), cells);
  }

  ghost predicate LiveAt(s: Snapshot, t: Snapshot, k: ColumnRef, cells: set<FieldRef>) {
    SameColumn(s, t, k) && Slots(s.document, k) <= cells
  }

  lemma LiveWalk(s: Snapshot, t: Snapshot, e: Expression, cells: set<FieldRef>)
    requires e.ColumnConditional? && e.criteria != [] && NodeDeclares(e) && s.document == t.document
    requires forall k :: k in OwnColumns(e) ==> LiveAt(s, t, k, cells)
    ensures var columns := CriterionColumns(e.criteria);
      && SameWalk(s, t, e.aggregate, columns)
      && WalkBlames(s, columns, e.aggregate, RowOrder(s.document, columns[0].schema), cells)
  {
    var columns := CriterionColumns(e.criteria);
    var schema := columns[0].schema;
    forall i, row | 0 <= i < |columns| && row in Rows(s.document, schema)
      ensures FieldRef(row, columns[i].field) in cells && SameCell(s, t, FieldRef(row, columns[i].field))
    {
      LiveWalkCell(s, t, e, cells, ColumnRef(schema, e.criteria[i].column.field), row);
    }
    forall v, row | v in ValueColumn(e.aggregate) && row in Rows(s.document, schema)
      ensures FieldRef(row, v.field) in cells && SameCell(s, t, FieldRef(row, v.field))
    {
      LiveWalkCell(s, t, e, cells, ColumnRef(schema, v.field), row);
    }
  }

  lemma LiveWalkCell(s: Snapshot, t: Snapshot, e: Expression, cells: set<FieldRef>, k: ColumnRef, row: EntityId)
    requires k in OwnColumns(e) && LiveAt(s, t, k, cells) && row in Rows(s.document, k.schema)
    ensures FieldRef(row, k.field) in cells && SameCell(s, t, FieldRef(row, k.field))
  {
    assert FieldRef(row, k.field) in Slots(s.document, k);
  }

  // ---- Blaming no failed cell is declaring the walk ----

  // Where none of its own columns has a failed cell, the node's walk blames
  // none, for every choice of tests.
  ghost predicate WalkBlamesLive(rules: Rules, e: Expression)
    requires e.ColumnConditional? && e.criteria != []
  {
    var columns := CriterionColumns(e.criteria);
    forall s: Snapshot, tests: seq<CriterionTest> ::
      |tests| == |columns| && FailuresAreStored(s) && NoColumnFailed(rules, s, e) ==>
      BlamesNone(ConditionalOf(rules, s, e.aggregate, columns, tests), s.failures.Keys)
  }

  ghost predicate NoColumnFailed(rules: Rules, s: Snapshot, e: Expression) {
    forall k :: k in OwnColumns(e) ==> FirstFailed(rules, s, k) == {}
  }

  ghost predicate BlamesNone<T>(r: Result<T>, cells: set<FieldRef>) {
    r.Err? && r.failure.FailedDependencies? ==> r.failure.dependencies !! cells
  }

  lemma NoOtherCells(schema: SchemaId, field: FieldId, k: ColumnRef)
    requires k != ColumnRef(schema, field)
    ensures ColumnCells(OneCell(schema, field), k) == []
  {
    var document := OneCell(schema, field);
    if k.schema == schema {
      assert Rows(document, k.schema) == {0};
      IncreasingIsUnique(Ascending({0}), [0]);
      assert [0][1..] == [] && Stored(document, FieldRef(0, k.field)).None?;
      assert NonBlank(document, [0][1..], k.field) == [];
    } else {
      assert Rows(document, k.schema) == {};
      IncreasingIsUnique(Ascending({}), []);
    }
  }

  lemma UndeclaredBlame(rules: Rules, e: Expression, field: FieldId)
    requires e.ColumnConditional? && e.criteria != []
    requires ColumnRef(e.criteria[0].column.schema, field) !in OwnColumns(e)
    requires WalksCriterion(CriterionColumns(e.criteria), field) || WalksValue(e.aggregate, field)
    ensures !WalkBlamesLive(rules, e)
  {
    var columns := CriterionColumns(e.criteria);
    var schema, cell := columns[0].schema, FieldRef(0, field);
    var s, tests := Unsettled(schema, field, map[cell := DivisionByZero]), BlankTests(|columns|);
    WalkOfOneCell(rules, e.aggregate, columns, field, s.failures);
    forall k | k in OwnColumns(e) ensures FirstFailed(rules, s, k) == {} {
      NoOtherCells(schema, field, k);
    }
    assert FailuresAreStored(s) && |tests| == |columns| && NoColumnFailed(rules, s, e);
    assert cell in {cell} * s.failures.Keys;
  }

  // A conditional blames no failed cell as long as none of its columns has one
  // if and only if it declares its walk.
  lemma DeclaringIsBlamingLive(rules: Rules, e: Expression)
    requires e.ColumnConditional? && e.criteria != []
    ensures NodeDeclares(e) <==> WalkBlamesLive(rules, e)
  {
    var columns := CriterionColumns(e.criteria);
    if NodeDeclares(e) {
      forall s: Snapshot, tests: seq<CriterionTest> |
        |tests| == |columns| && FailuresAreStored(s) && NoColumnFailed(rules, s, e)
        ensures BlamesNone(ConditionalOf(rules, s, e.aggregate, columns, tests), s.failures.Keys)
      {
        LiveConditional(rules, s, s, FieldRef(0, 0), e, tests);
      }
    } else {
      var field := UndeclaredField(e);
      UndeclaredBlame(rules, e, field);
    }
  }

  // ---- Every expression ----

  lemma ChildRequiresNothing(rules: Rules, s: Snapshot, owner: FieldRef, e: Expression, c: Expression)
    requires FailedRequired(rules, s, owner, e) == {} && c in Children(e) && !e.If? && !e.IsBlank?
    ensures FailedRequired(rules, s, owner, c) == {}
  {
    assert FailedRequired(rules, s, owner, c) <= FailedRequired(rules, s, owner, e);
  }

  lemma OwnColumnsRequireNothing(rules: Rules, s: Snapshot, owner: FieldRef, e: Expression, k: ColumnRef)
    requires FailedRequired(rules, s, owner, e) == {} && k in OwnColumns(e)
    ensures FirstFailed(rules, s, k) == {}
  {
    assert FirstFailed(rules, s, k) <= FailedRequired(rules, s, owner, e);
  }

  // What holds of a part of an expression that requires no failed cell.
  ghost predicate Undisturbed<T>(a: Result<T>, b: Result<T>, cells: set<FieldRef>) {
    a == b && Blames(a, cells)
  }

  // A number that requires no failed cell depends on none and blames none.
  lemma {:induction false} NumberReadsLive(rules: Rules, s: Snapshot, t: Snapshot, owner: FieldRef, e: Expression)
    requires Declares(e) && FailuresAreStored(s) && AgreeOffFailed(s, t) && FailedRequired(rules, s, owner, e) == {}
    ensures Undisturbed(NumberOf(rules, s, owner, e), NumberOf(rules, t, owner, e), LiveReads(s, owner, e))
    decreases e, 1
  {
    match e {
      case Reference(_) => LiveReference(s, t, owner, e);
      case SameRow(_) => LiveReference(s, t, owner, e);
      case If(condition, thenValue, elseValue) =>
        assert Children(e) == [condition, thenValue, elseValue];
        assert condition in Children(e) && thenValue in Children(e) && elseValue in Children(e);
        ConditionReadsLive(rules, s, t, owner, condition);
        ChildLiveReads(s, owner, e, condition);
        var holds := ConditionOf(rules, s, owner, condition);
        if holds.Ok? {
          var taken := if holds.value then thenValue else elseValue;
          NumberReadsLive(rules, s, t, owner, taken);
          ChildLiveReads(s, owner, e, taken);
        }
      case ColumnTotal(column) =>
        OwnColumnReadsLive(rules, s, t, owner, e, column, Count);
      case ColumnAggregate(kind, column) =>
        OwnColumnReadsLive(rules, s, t, owner, e, column, kind);
      case ColumnConditional(_, criteria) =>
        ConditionalReadsLive(rules, s, t, owner, e);
      case Round(operand, _) =>
        assert operand in Children(e);
        ChildRequiresNothing(rules, s, owner, e, operand);
        NumberReadsLive(rules, s, t, owner, operand);
        ChildLiveReads(s, owner, e, operand);
      case Binary(_, left, right) =>
        PairReadsLive(rules, s, t, owner, e, left, right);
      case _ =>
    }
  }

  lemma LiveReference(s: Snapshot, t: Snapshot, owner: FieldRef, e: Expression)
    requires IsCellReference(e) && AgreeOffFailed(s, t) && Target(owner, e) !in s.failures
    ensures Target(owner, e) in LiveReads(s, owner, e)
    ensures Undisturbed(ReferenceValueOf(s, Target(owner, e)), ReferenceValueOf(t, Target(owner, e)), LiveReads(s, owner, e))
  {
    LiveCell(s, t, Target(owner, e));
    assert Target(owner, e) in DirectReferences(owner, e);
  }

  lemma OwnColumnReadsLive(
    rules: Rules, s: Snapshot, t: Snapshot, owner: FieldRef, e: Expression, k: ColumnRef, kind: ColumnAggregateFunction
  )
    requires FailuresAreStored(s) && AgreeOffFailed(s, t) && FailedRequired(rules, s, owner, e) == {} && k in OwnColumns(e)
    ensures ReadColumn(rules, s, k) == ReadColumn(rules, t, k)
    ensures Blames(TotalOf(ReadColumn(rules, s, k)), LiveReads(s, owner, e))
    ensures Blames(AggregateOf(rules, kind, ReadColumn(rules, s, k)), LiveReads(s, owner, e))
  {
    OwnColumnsRequireNothing(rules, s, owner, e, k);
    LiveColumn(rules, s, t, k);
    SameReadColumn(rules, s, t, k);
    ColumnBlames(rules, s, k, kind);
    LiveSlots(s, owner, e, k);
  }

  lemma {:induction false} PairReadsLive(
    rules: Rules, s: Snapshot, t: Snapshot, owner: FieldRef, e: Expression, left: Expression, right: Expression
  )
    requires Declares(e) && FailuresAreStored(s) && AgreeOffFailed(s, t) && FailedRequired(rules, s, owner, e) == {}
    requires Children(e) == [left, right] && !e.If? && !e.IsBlank?
    ensures Undisturbed(NumberOf(rules, s, owner, left), NumberOf(rules, t, owner, left), LiveReads(s, owner, e))
    ensures Undisturbed(NumberOf(rules, s, owner, right), NumberOf(rules, t, owner, right), LiveReads(s, owner, e))
    decreases e, 0
  {
    assert left in Children(e) && right in Children(e);
    ChildRequiresNothing(rules, s, owner, e, left);
    ChildRequiresNothing(rules, s, owner, e, right);
    NumberReadsLive(rules, s, t, owner, left);
    NumberReadsLive(rules, s, t, owner, right);
    ChildLiveReads(s, owner, e, left);
    ChildLiveReads(s, owner, e, right);
  }

  lemma {:induction false} ConditionalReadsLive(rules: Rules, s: Snapshot, t: Snapshot, owner: FieldRef, e: Expression)
    requires e.ColumnConditional?
    requires Declares(e) && FailuresAreStored(s) && AgreeOffFailed(s, t) && FailedRequired(rules, s, owner, e) == {}
    ensures Undisturbed(NumberOf(rules, s, owner, e), NumberOf(rules, t, owner, e), LiveReads(s, owner, e))
    decreases e, 0
  {
    if e.criteria != [] {
      forall k | k in OwnColumns(e) ensures FirstFailed(rules, s, k) == {} {
        OwnColumnsRequireNothing(rules, s, owner, e, k);
      }
      forall c | c in Children(e) ensures Declares(c) && FailedRequired(rules, s, owner, c) == {} {
        ChildRequiresNothing(rules, s, owner, e, c);
      }
      forall k | k in e.criteria && k.operand.Some? ensures k.operand.value in Children(e) && k.operand.value < e {
        var i :| 0 <= i < |e.criteria| && e.criteria[i] == k;
      }
      TestsReadLive(rules, s, t, owner, e.criteria, e);
      var tests := TestsOf(rules, s, owner, e.criteria, e);
      if tests.Ok? {
        LiveConditional(rules, s, t, owner, e, tests.value);
      }
    }
  }

  ghost predicate RequiresNothing(rules: Rules, s: Snapshot, owner: FieldRef, k: ColumnCriterion, parent: Expression) {
    k.operand.Some? ==>
      && k.operand.value < parent && k.operand.value in Children(parent) && Declares(k.operand.value)
      && FailedRequired(rules, s, owner, k.operand.value) == {}
  }

  lemma {:induction false} TestsReadLive(
    rules: Rules, s: Snapshot, t: Snapshot, owner: FieldRef, criteria: seq<ColumnCriterion>, parent: Expression
  )
    requires FailuresAreStored(s) && AgreeOffFailed(s, t)
    requires forall k :: k in criteria && k.operand.Some? ==> k.operand.value < parent
    requires forall k :: k in criteria ==> RequiresNothing(rules, s, owner, k, parent)
    ensures Undisturbed(TestsOf(rules, s, owner, criteria, parent), TestsOf(rules, t, owner, criteria, parent), LiveReads(s, owner, parent))
    decreases parent, 0, |criteria|
  {
    if criteria != [] {
      assert criteria[0] in criteria && forall l :: l in criteria[1..] ==> l in criteria;
      TestReadsLive(rules, s, t, owner, criteria[0], parent);
      TestsReadLive(rules, s, t, owner, criteria[1..], parent);
    }
  }

  lemma {:induction false} TestReadsLive(
    rules: Rules, s: Snapshot, t: Snapshot, owner: FieldRef, k: ColumnCriterion, parent: Expression
  )
    requires FailuresAreStored(s) && AgreeOffFailed(s, t) && RequiresNothing(rules, s, owner, k, parent)
    ensures Undisturbed(TestOf(rules, s, owner, k, parent), TestOf(rules, t, owner, k, parent), LiveReads(s, owner, parent))
    decreases parent, 0, 0
  {
    if k.operand.Some? {
      var e := k.operand.value;
      if IsCellReference(e) {
        LiveReferenceTest(rules, s, t, owner, e);
      }
      NumberReadsLive(rules, s, t, owner, e);
      ChildLiveReads(s, owner, parent, e);
    }
  }

  lemma LiveReferenceTest(rules: Rules, s: Snapshot, t: Snapshot, owner: FieldRef, e: Expression)
    requires IsCellReference(e) && AgreeOffFailed(s, t) && Target(owner, e) !in s.failures
    ensures Undisturbed(ReferenceTest(rules, s, Target(owner, e)), ReferenceTest(rules, t, Target(owner, e)), LiveReads(s, owner, e))
  {
    LiveCell(s, t, Target(owner, e));
    assert Target(owner, e) in DirectReferences(owner, e);
  }

  lemma {:induction false} ConditionReadsLive(rules: Rules, s: Snapshot, t: Snapshot, owner: FieldRef, e: Expression)
    requires Declares(e) && FailuresAreStored(s) && AgreeOffFailed(s, t) && FailedRequired(rules, s, owner, e) == {}
    ensures Undisturbed(ConditionOf(rules, s, owner, e), ConditionOf(rules, t, owner, e), LiveReads(s, owner, e))
    decreases e, 1
  {
    match e {
      case Compare(_, left, right) =>
        PairReadsLive(rules, s, t, owner, e, left, right);
      case Logical(connective, arguments) =>
        forall c | c in arguments ensures c in Children(e) && Declares(c) && FailedRequired(rules, s, owner, c) == {} {
          ChildRequiresNothing(rules, s, owner, e, c);
        }
        ConditionsReadLive(rules, s, t, owner, connective, arguments, connective.And?, e);
      case Not(operand) =>
        assert operand in Children(e);
        ChildRequiresNothing(rules, s, owner, e, operand);
        ConditionReadsLive(rules, s, t, owner, operand);
        ChildLiveReads(s, owner, e, operand);
      case _ =>
    }
  }

  lemma {:induction false} ConditionsReadLive(
    rules: Rules, s: Snapshot, t: Snapshot, owner: FieldRef, connective: Connective, arguments: seq<Expression>, sofar: bool,
    parent: Expression
  )
    requires FailuresAreStored(s) && AgreeOffFailed(s, t)
    requires forall c :: c in arguments ==>
      c < parent && c in Children(parent) && Declares(c) && FailedRequired(rules, s, owner, c) == {}
    ensures Undisturbed(ConditionsOf(rules, s, owner, connective, arguments, sofar, parent),
                        ConditionsOf(rules, t, owner, connective, arguments, sofar, parent), LiveReads(s, owner, parent))
    decreases parent, 0, |arguments|
  {
    if arguments != [] {
      assert arguments[0] in arguments && forall c :: c in arguments[1..] ==> c in arguments;
      ConditionReadsLive(rules, s, t, owner, arguments[0]);
      ChildLiveReads(s, owner, parent, arguments[0]);
      var first := ConditionOf(rules, s, owner, arguments[0]);
      if first.Ok? {
        ConditionsReadLive(rules, s, t, owner, connective, arguments[1..],
                           if connective.And? then sofar && first.value else sofar || first.value, parent);
      }
    }
  }

  // ---- What a formula's failure blames ----

  lemma {:induction false} FailedRequiredAreReads(rules: Rules, s: Snapshot, owner: FieldRef, e: Expression)
    ensures FailedRequired(rules, s, owner, e) <= Dependencies(s.document, owner, e) * s.failures.Keys
  {
    if !IsCellReference(e) && !e.IsBlank? {
      forall c | c in Children(e)
        ensures FailedRequired(rules, s, owner, c) <= Dependencies(s.document, owner, e) * s.failures.Keys
      {
        FailedRequiredAreReads(rules, s, owner, c);
        ChildDependencies(s.document, owner, e, c);
      }
      if e.If? {
        assert Children(e) == [e.condition, e.thenValue, e.elseValue];
        assert e.condition in Children(e) && e.thenValue in Children(e) && e.elseValue in Children(e);
      } else {
        forall k | k in OwnColumns(e)
          ensures FirstFailed(rules, s, k) <= Dependencies(s.document, owner, e) * s.failures.Keys
        {
          FirstFailedIsRead(rules, s, owner, e, k);
        }
      }
    }
  }

  lemma FirstFailedIsRead(rules: Rules, s: Snapshot, owner: FieldRef, e: Expression, k: ColumnRef)
    requires k in OwnColumns(e)
    ensures FirstFailed(rules, s, k) <= Dependencies(s.document, owner, e) * s.failures.Keys
  {
    FirstFailedIsFailed(rules, s, ColumnCells(s.document, k), NothingRead);
    assert k in Columns(e) && Slots(s.document, k) <= Dependencies(s.document, owner, e);
  }

  lemma {:induction false} FirstFailedIsFailed(rules: Rules, s: Snapshot, cells: seq<FieldRef>, read: ColumnValues)
    ensures var last := ReadCells(rules, s, cells, read).firstFailed;
      last.Some? ==> last == read.firstFailed || (last.value in cells && last.value in s.failures)
  {
    if cells != [] {
      FirstFailedIsFailed(rules, s, cells[1..], ReadCell(rules, s, cells[0], read));
      assert cells == [cells[0]] + cells[1..];
    }
  }

  // A formula that fails by its dependencies blames either failed cells it
  // requires, all of them, or only cells that have not failed.
  lemma OutcomeBlames(rules: Rules, s: Snapshot, owner: FieldRef, e: Expression)
    requires Declares(e) && FailuresAreStored(s)
    ensures var outcome := FormulaOutcome(rules, s, owner, e);
      outcome.Err? && outcome.failure.FailedDependencies? ==>
        var blamed := outcome.failure.dependencies;
        && blamed <= Dependencies(s.document, owner, e)
        && (blamed <= s.failures.Keys || blamed !! s.failures.Keys)
        && blamed * s.failures.Keys == FailedRequired(rules, s, owner, e)
  {
    FailedRequiredAreReads(rules, s, owner, e);
    if FailedRequired(rules, s, owner, e) == {} {
      NumberReadsLive(rules, s, s, owner, e);
    }
  }
}
