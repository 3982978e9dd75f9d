/**
 What the simple evaluator's walks mean, stated about the rows and cells
 themselves: which cells a column has, which failure is first, which rows a
 conditional selects and in what order their values are added.
 */
module Meaning {
  import opened Model
  import opened Expressions
  import opened Criteria
  import opened Ordered
  import opened Evaluator

  // ---- Columns ----

  lemma {:induction false} NonBlankAre(document: Document, rows: seq<EntityId>, field: FieldId)
    ensures forall c :: c in NonBlank(document, rows, field) <==> c.field == field && c.entity in rows && Stored(document, c).Some?
  {
    if rows != [] {
      NonBlankAre(document, rows[1..], field);
      assert rows == [rows[0]] + rows[1..];
    }
  }

  ghost predicate EntityOrder(cells: seq<FieldRef>) {
    forall i, j :: 0 <= i < j < |cells| ==> cells[i].entity < cells[j].entity
  }

  lemma {:induction false} NonBlankInOrder(document: Document, rows: seq<EntityId>, field: FieldId)
    requires Increasing(rows)
    ensures EntityOrder(NonBlank(document, rows, field))
  {
    if rows != [] {
      var cells, rest := NonBlank(document, rows, field), NonBlank(document, rows[1..], field);
      NonBlankInOrder(document, rows[1..], field);
      forall c | c in rest ensures rows[0] < c.entity {
        assert c.entity in rows[1..];
      }
      assert cells == rest || cells == [FieldRef(rows[0], field)] + rest;
    }
  }

  // A column's cells are the non-blank slots, in entity order.
  lemma ColumnCellsMean(document: Document, column: ColumnRef)
    ensures forall c :: c in ColumnCells(document, column) <==> c in Slots(document, column) && Stored(document, c).Some?
    ensures EntityOrder(ColumnCells(document, column))
  {
    NonBlankAre(document, RowOrder(document, column.schema), column.field);
    NonBlankInOrder(document, RowOrder(document, column.schema), column.field);
  }

  // The first cell with a property, if any cell has it.
  ghost predicate IsFirst(cells: seq<FieldRef>, has: FieldRef -> bool, found: Option<FieldRef>) {
    match found
    case None => forall c :: c in cells ==> !has(c)
    case Some(cell) => exists i :: 0 <= i < |cells| && cells[i] == cell && has(cell) && forall j :: 0 <= j < i ==> !has(cells[j])
  }

  lemma FirstHere(cells: seq<FieldRef>, has: FieldRef -> bool)
    requires cells != [] && has(cells[0])
    ensures IsFirst(cells, has, Some(cells[0]))
  {
  }

  lemma FirstLater(cells: seq<FieldRef>, has: FieldRef -> bool, found: Option<FieldRef>)
    requires cells != [] && !has(cells[0]) && IsFirst(cells[1..], has, found)
    ensures IsFirst(cells, has, found)
  {
    if found.Some? {
      var i :| 0 <= i < |cells[1..]| && cells[1..][i] == found.value && forall j :: 0 <= j < i ==> !has(cells[1..][j]);
      assert cells[i + 1] == found.value;
      forall j | 0 <= j < i + 1 ensures !has(cells[j]) {
        if j > 0 { assert cells[j] == cells[1..][j - 1]; }
      }
    } else {
      assert cells == [cells[0]] + cells[1..];
    }
  }

  lemma FirstIsUnique(cells: seq<FieldRef>, has: FieldRef -> bool, a: Option<FieldRef>, b: Option<FieldRef>)
    requires IsFirst(cells, has, a) && IsFirst(cells, has, b)
    ensures a == b
  {
  }

  // The values a column has, in the order of its cells.
  function PresentOf(s: Snapshot, cells: seq<FieldRef>): seq<Float> {
    if cells == [] then []
    else (if cells[0] in s.values then [s.values[cells[0]].Get()] else []) + PresentOf(s, cells[1..])
  }

  ghost predicate FoundFirst(cells: seq<FieldRef>, has: FieldRef -> bool, before: Option<FieldRef>, after: Option<FieldRef>) {
    if before.Some? then after == before else IsFirst(cells, has, after)
  }

  lemma {:induction false} ReadCellsMean(rules: Rules, s: Snapshot, cells: seq<FieldRef>, read: ColumnValues)
    ensures var last := ReadCells(rules, s, cells, read);
      && last.present == read.present + PresentOf(s, cells)
      && last.total == FoldFloats(rules.add, read.total, PresentOf(s, cells))
      && FoundFirst(cells, (c: FieldRef) => c in s.failures, read.firstFailed, last.firstFailed)
      && FoundFirst(cells, (c: FieldRef) => c !in s.values, read.firstMissing, last.firstMissing)
  {
    if cells != [] {
      var next := ReadCell(rules, s, cells[0], read);
      var last := ReadCells(rules, s, cells[1..], next);
      ReadCellsMean(rules, s, cells[1..], next);
      FoundStep(cells, (c: FieldRef) => c in s.failures, read.firstFailed, next.firstFailed, last.firstFailed);
      FoundStep(cells, (c: FieldRef) => c !in s.values, read.firstMissing, next.firstMissing, last.firstMissing);
      if cells[0] in s.values {
        var value := s.values[cells[0]].Get();
        assert PresentOf(s, cells)[1..] == PresentOf(s, cells[1..]);
        assert read.present + [value] + PresentOf(s, cells[1..]) == read.present + PresentOf(s, cells);
      } else {
        assert PresentOf(s, cells) == PresentOf(s, cells[1..]);
      }
    }
  }

  lemma FoundStep(cells: seq<FieldRef>, has: FieldRef -> bool, before: Option<FieldRef>, next: Option<FieldRef>, last: Option<FieldRef>)
    requires cells != [] && FoundFirst(cells[1..], has, next, last)
    requires next == if before == None && has(cells[0]) then Some(cells[0]) else before
    ensures FoundFirst(cells, has, before, last)
  {
    if before == None {
      if has(cells[0]) { FirstHere(cells, has); } else { FirstLater(cells, has, last); }
    }
  }

  // A column read: its values in entity order, their running sum, and the
  // first failed and the first valueless cell.
  lemma ReadColumnMeans(rules: Rules, s: Snapshot, column: ColumnRef)
    ensures var read, cells := ReadColumn(rules, s, column), ColumnCells(s.document, column);
      && read.present == PresentOf(s, cells)
      && read.total == FoldFloats(rules.add, Finite(0), PresentOf(s, cells))
      && IsFirst(cells, (c: FieldRef) => c in s.failures, read.firstFailed)
      && IsFirst(cells, (c: FieldRef) => c !in s.values, read.firstMissing)
  {
    ReadCellsMean(rules, s, ColumnCells(s.document, column), NothingRead);
  }

  // ---- Conditional aggregates ----

  ghost predicate Meets(rules: Rules, s: Snapshot, column: ColumnRef, test: CriterionTest, row: EntityId) {
    var cell := CriterionCellOf(s, FieldRef(row, column.field));
    cell.Ok? && Matches(rules, test, cell.value)
  }

  // Every criterion before the i-th is met.
  ghost predicate MeetsUpTo(rules: Rules, s: Snapshot, columns: seq<ColumnRef>, tests: seq<CriterionTest>, row: EntityId, from: nat, i: nat)
    requires |columns| == |tests| && i <= |tests|
  {
    forall k :: from <= k < i ==> Meets(rules, s, columns[k], tests[k], row)
  }

  // A row matches when it meets every criterion; otherwise the first one it
  // does not meet rejects it or fails.
  lemma {:induction false} RowMatchesMeans(
    rules: Rules, s: Snapshot, columns: seq<ColumnRef>, tests: seq<CriterionTest>, row: EntityId, from: nat
  )
    requires |columns| == |tests| && from <= |tests|
    ensures match RowMatches(rules, s, columns, tests, row, from)
      case Ok(true) => MeetsUpTo(rules, s, columns, tests, row, from, |tests|)
      case Ok(false) => exists i :: from <= i < |tests| && MeetsUpTo(rules, s, columns, tests, row, from, i)
                          && CriterionCellOf(s, FieldRef(row, columns[i].field)).Ok? && !Meets(rules, s, columns[i], tests[i], row)
      case Err(failure) => exists i :: from <= i < |tests| && MeetsUpTo(rules, s, columns, tests, row, from, i)
                             && CriterionCellOf(s, FieldRef(row, columns[i].field)) == Err(failure)
    decreases |tests| - from
  {
    if from < |tests| {
      var cell := CriterionCellOf(s, FieldRef(row, columns[from].field));
      if Meets(rules, s, columns[from], tests[from], row) {
        RowMatchesMeans(rules, s, columns, tests, row, from + 1);
      } else {
        assert MeetsUpTo(rules, s, columns, tests, row, from, from);
      }
    }
  }

  // What one row contributes, or the failure that stops the walk at it.
  function RowOutcome(
    rules: Rules, s: Snapshot, aggregate: ConditionalAggregate, columns: seq<ColumnRef>, tests: seq<CriterionTest>, row: EntityId
  ): Result<Option<seq<Float>>>
    requires |columns| == |tests|
  {
    match RowMatches(rules, s, columns, tests, row, 0)
    case Err(failure) => Err(failure)
    case Ok(false) => Ok(None)
    case Ok(true) =>
      match RowValue(s, aggregate, row)
      case Err(failure) => Err(failure)
      case Ok(values) => Ok(Some(values))
  }

  function Selected(
    rules: Rules, s: Snapshot, columns: seq<ColumnRef>, tests: seq<CriterionTest>, rows: seq<EntityId>
  ): (selected: seq<EntityId>)
    requires |columns| == |tests|
    ensures forall row :: row in selected <==> row in rows && RowMatches(rules, s, columns, tests, row, 0) == Ok(true)
  {
    if rows == [] then []
    else
      assert rows == [rows[0]] + rows[1..];
      (if RowMatches(rules, s, columns, tests, rows[0], 0) == Ok(true) then [rows[0]] else [])
      + Selected(rules, s, columns, tests, rows[1..])
  }

  // The values of some rows in their order, blanks left out.
  function ValuesOf(s: Snapshot, aggregate: ConditionalAggregate, rows: seq<EntityId>): seq<Float> {
    if rows == [] then []
    else (match RowValue(s, aggregate, rows[0]) case Ok(values) => values case Err(_) => []) + ValuesOf(s, aggregate, rows[1..])
  }

  ghost predicate StopsAt(
    rules: Rules, s: Snapshot, aggregate: ConditionalAggregate, columns: seq<ColumnRef>, tests: seq<CriterionTest>,
    rows: seq<EntityId>, i: nat, failure: CalculationFailure
  )
    requires |columns| == |tests|
  {
    && i < |rows| && RowOutcome(rules, s, aggregate, columns, tests, rows[i]) == Err(failure)
    && forall j :: 0 <= j < i ==> RowOutcome(rules, s, aggregate, columns, tests, rows[j]).Ok?
  }

  ghost predicate WalkMeaning(
    rules: Rules, s: Snapshot, aggregate: ConditionalAggregate, columns: seq<ColumnRef>, tests: seq<CriterionTest>,
    rows: seq<EntityId>, sofar: Matched, walked: Result<Matched>
  )
    requires |columns| == |tests|
  {
    match walked
    case Ok(matched) =>
      var selected := Selected(rules, s, columns, tests, rows);
      && (forall row :: row in rows ==> RowOutcome(rules, s, aggregate, columns, tests, row).Ok?)
      && matched == Matched(sofar.rows + |selected|, sofar.values + ValuesOf(s, aggregate, selected))
    case Err(failure) => exists i: nat :: StopsAt(rules, s, aggregate, columns, tests, rows, i, failure)
  }

  // A walk either counts the selected rows and lists their values in order, or
  // stops at the first row that fails, with that row's failure.
  lemma {:induction false} WalkMeans(
    rules: Rules, s: Snapshot, aggregate: ConditionalAggregate, columns: seq<ColumnRef>, tests: seq<CriterionTest>,
    rows: seq<EntityId>, sofar: Matched
  )
    requires |columns| == |tests|
    ensures WalkMeaning(rules, s, aggregate, columns, tests, rows, sofar,
                        WalkRows(rules, s, aggregate, columns, tests, rows, sofar))
    decreases |rows|
  {
    if rows == [] {
      assert sofar.values + [] == sofar.values;
    } else {
      var step := WalkRow(rules, s, aggregate, columns, tests, rows[0], sofar);
      if step.Err? {
        assert StopsAt(rules, s, aggregate, columns, tests, rows, 0, step.failure);
      } else {
        WalkMeans(rules, s, aggregate, columns, tests, rows[1..], step.value);
        WalkStep(rules, s, aggregate, columns, tests, rows, sofar);
      }
    }
  }

  lemma WalkStep(
    rules: Rules, s: Snapshot, aggregate: ConditionalAggregate, columns: seq<ColumnRef>, tests: seq<CriterionTest>,
    rows: seq<EntityId>, sofar: Matched
  )
    requires |columns| == |tests| && rows != []
    requires WalkRow(rules, s, aggregate, columns, tests, rows[0], sofar).Ok?
    requires var next := WalkRow(rules, s, aggregate, columns, tests, rows[0], sofar).value;
      WalkMeaning(rules, s, aggregate, columns, tests, rows[1..], next,
                  WalkRows(rules, s, aggregate, columns, tests, rows[1..], next))
    ensures WalkMeaning(rules, s, aggregate, columns, tests, rows, sofar,
                        WalkRows(rules, s, aggregate, columns, tests, rows, sofar))
  {
    var next := WalkRow(rules, s, aggregate, columns, tests, rows[0], sofar).value;
    var walked := WalkRows(rules, s, aggregate, columns, tests, rows[1..], next);
    FirstRowGoesOn(rules, s, aggregate, columns, tests, rows[0], sofar);
    if walked.Err? {
      var i: nat :| StopsAt(rules, s, aggregate, columns, tests, rows[1..], i, walked.failure);
      StopsLater(rules, s, aggregate, columns, tests, rows, i, walked.failure);
    } else {
      assert rows == [rows[0]] + rows[1..];
      SelectedStep(rules, s, aggregate, columns, tests, rows, sofar);
    }
  }

  lemma FirstRowGoesOn(
    rules: Rules, s: Snapshot, aggregate: ConditionalAggregate, columns: seq<ColumnRef>, tests: seq<CriterionTest>,
    row: EntityId, sofar: Matched
  )
    requires |columns| == |tests|
    ensures WalkRow(rules, s, aggregate, columns, tests, row, sofar).Ok? <==> RowOutcome(rules, s, aggregate, columns, tests, row).Ok?
    ensures WalkRow(rules, s, aggregate, columns, tests, row, sofar).Err? ==>
      RowOutcome(rules, s, aggregate, columns, tests, row)
      == Err(WalkRow(rules, s, aggregate, columns, tests, row, sofar).failure)
  {
  }

  lemma StopsLater(
    rules: Rules, s: Snapshot, aggregate: ConditionalAggregate, columns: seq<ColumnRef>, tests: seq<CriterionTest>,
    rows: seq<EntityId>, i: nat, failure: CalculationFailure
  )
    requires |columns| == |tests| && rows != [] && RowOutcome(rules, s, aggregate, columns, tests, rows[0]).Ok?
    requires StopsAt(rules, s, aggregate, columns, tests, rows[1..], i, failure)
    ensures StopsAt(rules, s, aggregate, columns, tests, rows, i + 1, failure)
  {
    forall j | 0 <= j < i + 1 ensures RowOutcome(rules, s, aggregate, columns, tests, rows[j]).Ok? {
      if j > 0 { assert rows[j] == rows[1..][j - 1]; }
    }
  }

  lemma SelectedStep(
    rules: Rules, s: Snapshot, aggregate: ConditionalAggregate, columns: seq<ColumnRef>, tests: seq<CriterionTest>,
    rows: seq<EntityId>, sofar: Matched
  )
    requires |columns| == |tests| && rows != []
    requires WalkRow(rules, s, aggregate, columns, tests, rows[0], sofar).Ok?
    ensures AddsUp(s, aggregate, WalkRow(rules, s, aggregate, columns, tests, rows[0], sofar).value,
                   Selected(rules, s, columns, tests, rows[1..]), sofar, Selected(rules, s, columns, tests, rows))
  {
    var rest, all := Selected(rules, s, columns, tests, rows[1..]), Selected(rules, s, columns, tests, rows);
    if RowMatches(rules, s, columns, tests, rows[0], 0) == Ok(true) {
      assert all == [rows[0]] + rest;
      OneMoreSelected(s, aggregate, rows[0], rest, sofar);
    } else {
      assert all == rest;
    }
  }

  // Two walks under way come to the same rows and values.
  ghost predicate AddsUp(
    s: Snapshot, aggregate: ConditionalAggregate, a: Matched, rest: seq<EntityId>, b: Matched, all: seq<EntityId>
  ) {
    && a.rows + |rest| == b.rows + |all|
    && a.values + ValuesOf(s, aggregate, rest) == b.values + ValuesOf(s, aggregate, all)
  }

  lemma OneMoreSelected(s: Snapshot, aggregate: ConditionalAggregate, row: EntityId, rest: seq<EntityId>, sofar: Matched)
    requires RowValue(s, aggregate, row).Ok?
    ensures AddsUp(s, aggregate, Matched(sofar.rows + 1, sofar.values + RowValue(s, aggregate, row).value), rest, sofar, [row] + rest)
  {
    assert ([row] + rest)[1..] == rest;
    Regroup(sofar.values, RowValue(s, aggregate, row).value, ValuesOf(s, aggregate, rest));
  }

  lemma Regroup(a: seq<Float>, b: seq<Float>, c: seq<Float>)
    ensures (a + b) + c == a + (b + c)
  {
  }

  // A conditional sum adds the selected rows' values in entity order.
  lemma ConditionalSumMeans(rules: Rules, s: Snapshot, value: ColumnRef, columns: seq<ColumnRef>, tests: seq<CriterionTest>)
    requires |columns| == |tests| && columns != []
    ensures var rows := RowOrder(s.document, columns[0].schema);
      var r := ConditionalOf(rules, s, SumOf(value), columns, tests);
      (forall row :: row in rows ==> RowOutcome(rules, s, SumOf(value), columns, tests, row).Ok?) ==>
        r == Finish(FoldFloats(rules.add, Finite(0), ValuesOf(s, SumOf(value), Selected(rules, s, columns, tests, rows))))
  {
    var rows := RowOrder(s.document, columns[0].schema);
    if forall row :: row in rows ==> RowOutcome(rules, s, SumOf(value), columns, tests, row).Ok? {
      WalkSelects(rules, s, SumOf(value), columns, tests, rows);
    }
  }

  lemma WalkSelects(
    rules: Rules, s: Snapshot, aggregate: ConditionalAggregate, columns: seq<ColumnRef>, tests: seq<CriterionTest>, rows: seq<EntityId>
  )
    requires |columns| == |tests|
    requires forall row :: row in rows ==> RowOutcome(rules, s, aggregate, columns, tests, row).Ok?
    ensures var selected := Selected(rules, s, columns, tests, rows);
      WalkRows(rules, s, aggregate, columns, tests, rows, Matched(0, []))
      == Ok(Matched(|selected|, ValuesOf(s, aggregate, selected)))
  {
    WalkMeans(rules, s, aggregate, columns, tests, rows, Matched(0, []));
    var walked := WalkRows(rules, s, aggregate, columns, tests, rows, Matched(0, []));
    if walked.Ok? {
      var values := ValuesOf(s, aggregate, Selected(rules, s, columns, tests, rows));
      assert [] + values == values;
    }
  }

  // ---- AND and OR ----

  // Every argument is evaluated: a connective holds when all, or some, hold,
  // and fails with the first failing argument.
  lemma {:induction false} ConnectiveMeans(
    rules: Rules, s: Snapshot, owner: FieldRef, connective: Connective, arguments: seq<Expression>, sofar: bool, parent: Expression
  )
    requires forall c :: c in arguments ==> c < parent
    ensures match ConditionsOf(rules, s, owner, connective, arguments, sofar, parent)
      case Ok(holds) =>
        && (forall i :: 0 <= i < |arguments| ==> ConditionOf(rules, s, owner, arguments[i]).Ok?)
        && (holds <==>
              if connective.And? then sofar && forall i :: 0 <= i < |arguments| ==> ConditionOf(rules, s, owner, arguments[i]) == Ok(true)
              else sofar || exists i :: 0 <= i < |arguments| && ConditionOf(rules, s, owner, arguments[i]) == Ok(true))
      case Err(failure) =>
        exists i :: 0 <= i < |arguments| && ConditionOf(rules, s, owner, arguments[i]) == Err(failure)
                    && forall j :: 0 <= j < i ==> ConditionOf(rules, s, owner, arguments[j]).Ok?
    decreases |arguments|
  {
    if arguments != [] {
      assert arguments[0] in arguments && forall c :: c in arguments[1..] ==> c in arguments;
      var first := ConditionOf(rules, s, owner, arguments[0]);
      if first.Ok? {
        var next := if connective.And? then sofar && first.value else sofar || first.value;
        ConnectiveMeans(rules, s, owner, connective, arguments[1..], next, parent);
        assert forall i :: 0 < i < |arguments| ==> arguments[i] == arguments[1..][i - 1];
        assert forall i :: 0 <= i < |arguments| - 1 ==> arguments[1..][i] == arguments[i + 1];
      }
    }
  }
}
