/**
 The evaluation of one formula through the pass cache, refining the simple form
 of Evaluator: indexed candidates instead of full row walks, memoised results
 instead of recomputed ones.
 */
module Evaluation {
  import opened Model
  import opened Expressions
  import opened Criteria
  import opened Ordered
  import opened Evaluator
  import opened Locality
  import opened ColumnCaches

  // ---- Candidate rows ----

  // Merge two ascending id lists that share no id.
  method MergeIds(left: seq<EntityId>, right: seq<EntityId>) returns (merged: seq<EntityId>)
    requires Increasing(left) && Increasing(right)
    requires forall x :: x in left ==> x !in right
    ensures Increasing(merged)
    ensures forall x :: x in merged <==> x in left || x in right
  {
    merged := [];
    var l, r := 0, 0;
    while l < |left| || r < |right|
      invariant 0 <= l <= |left| && 0 <= r <= |right|
      invariant Increasing(merged)
      invariant forall x :: x in merged <==> x in left[..l] || x in right[..r]
      invariant forall x, j :: x in merged && l <= j < |left| ==> x < left[j]
      invariant forall x, j :: x in merged && r <= j < |right| ==> x < right[j]
      decreases |left| - l + |right| - r
    {
      var takeLeft := l < |left| && (r == |right| || left[l] <= right[r]);
      var takeRight := r < |right| && (l == |left| || right[r] <= left[l]);
      assert l < |left| && r < |right| ==> left[l] in left && right[r] in right;
      assert !(takeLeft && takeRight);
      if takeLeft {
        assert left[..l + 1] == left[..l] + [left[l]];
        AppendIncreasing(merged, left[l]);
        merged := merged + [left[l]];
        l := l + 1;
      }
      if takeRight {
        assert right[..r + 1] == right[..r] + [right[r]];
        AppendIncreasing(merged, right[r]);
        merged := merged + [right[r]];
        r := r + 1;
      }
    }
    assert left[..l] == left && right[..r] == right;
  }

  ghost predicate FiledUnderOne(rules: Rules, s: Snapshot, column: ColumnRef, row: EntityId, keys: seq<CriterionKey>) {
    exists key :: key in keys && FiledUnder(rules, s, column, row, key)
  }

  // Exactly the rows filed under one of the keys, in entity order.
  ghost predicate AreCandidates(
    rules: Rules, s: Snapshot, column: ColumnRef, keys: seq<CriterionKey>, candidates: seq<EntityId>
  ) {
    && Increasing(candidates)
    && forall row :: row in candidates <==>
         row in RowOrder(s.document, column.schema) && FiledUnderOne(rules, s, column, row, keys)
  }

  // The entities filed under the test's keys, in entity order; None when some
  // cell of the column may fail.
  method Candidates(
    rules: Rules, ghost s: Snapshot, column: ColumnRef, ghost test: CriterionTest, keys: seq<CriterionKey>, index: CriterionIndex
  ) returns (r: Option<seq<EntityId>>)
    requires IsIndexOf(rules, s, column, index) && TestKeys(rules, test) == Some(keys)
    ensures r.None? ==> index.scan
    ensures r.Some? ==> !index.scan && AreCandidates(rules, s, column, keys, r.value)
  {
    if index.scan {
      return None;
    }
    KeysAreExclusive(rules, test, NumberCell(NaN));
    var first := if keys[0] in index.entries then [index.entries[keys[0]]] else [];
    var second := if |keys| == 2 && keys[1] in index.entries then [index.entries[keys[1]]] else [];
    var lists := first + second;
    ghost var left := if keys[0] in index.entries then index.entries[keys[0]] else [];
    ghost var right := if |keys| == 2 && keys[1] in index.entries then index.entries[keys[1]] else [];
    var candidates: seq<EntityId>;
    if |lists| == 0 {
      candidates := [];
    } else if |lists| == 1 {
      candidates := lists[0];
    } else {
      ListsShareNoRow(rules, s, column, test, lists[0], lists[1]);
      candidates := MergeIds(lists[0], lists[1]);
    }
    FiledAreCandidates(rules, s, column, keys, index, left, right, candidates);
    r := Some(candidates);
  }

  lemma FiledAreCandidates(
    rules: Rules, s: Snapshot, column: ColumnRef, keys: seq<CriterionKey>, index: CriterionIndex,
    left: seq<EntityId>, right: seq<EntityId>, candidates: seq<EntityId>
  )
    requires IsIndexOf(rules, s, column, index) && 1 <= |keys| <= 2
    requires left == if keys[0] in index.entries then index.entries[keys[0]] else []
    requires right == if |keys| == 2 && keys[1] in index.entries then index.entries[keys[1]] else []
    requires Increasing(candidates) && forall row :: row in candidates <==> row in left || row in right
    ensures AreCandidates(rules, s, column, keys, candidates)
  {
    assert forall key :: key in keys ==> key == keys[0] || key == keys[|keys| - 1];
    forall row ensures row in candidates <==>
      row in RowOrder(s.document, column.schema) && FiledUnderOne(rules, s, column, row, keys)
    {
      if row in left { assert keys[0] in keys && FiledUnder(rules, s, column, row, keys[0]); }
      if row in right { assert keys[1] in keys && FiledUnder(rules, s, column, row, keys[1]); }
    }
  }

  lemma ListsShareNoRow(
    rules: Rules, s: Snapshot, column: ColumnRef, test: CriterionTest, left: seq<EntityId>, right: seq<EntityId>
  )
    requires TestKeys(rules, test).Some? && |TestKeys(rules, test).value| == 2
    requires forall row :: row in left ==> FiledUnder(rules, s, column, row, TestKeys(rules, test).value[0])
    requires forall row :: row in right ==> FiledUnder(rules, s, column, row, TestKeys(rules, test).value[1])
    ensures forall row :: row in left ==> row !in right
  {
    forall row | row in left ensures row !in right {
      KeysAreExclusive(rules, test, CriterionCellOf(s, FieldRef(row, column.field)).value.value);
    }
  }

  // A row outside the candidates is rejected cleanly by the first criterion.
  lemma DroppedRowsAreRejected(
    rules: Rules, s: Snapshot, columns: seq<ColumnRef>, tests: seq<CriterionTest>, candidates: seq<EntityId>,
    index: CriterionIndex, row: EntityId
  )
    requires |columns| == |tests| && columns != [] && TestKeys(rules, tests[0]).Some?
    requires IsIndexOf(rules, s, columns[0], index) && !index.scan
    requires AreCandidates(rules, s, columns[0], TestKeys(rules, tests[0]).value, candidates)
    requires row in RowOrder(s.document, columns[0].schema) && row !in candidates
    ensures RowMatches(rules, s, columns, tests, row, 0) == Ok(false)
  {
    var cell := CriterionCellOf(s, FieldRef(row, columns[0].field));
    if Matches(rules, tests[0], cell.value) {
      KeysNeverMiss(rules, tests[0], cell.value);
    }
  }

  lemma SameHead(rows: seq<EntityId>, candidates: seq<EntityId>)
    requires Increasing(rows) && Increasing(candidates) && rows != [] && rows[0] in candidates
    requires forall row :: row in candidates ==> row in rows
    ensures candidates != [] && candidates[0] == rows[0]
  {
    assert candidates[0] in rows;
  }

  // Dropping rows the first criterion cleanly rejects changes neither the
  // matched rows, nor the order of the values, nor the first error.
  lemma {:induction false} WalkOfCandidates(
    rules: Rules, s: Snapshot, aggregate: ConditionalAggregate, columns: seq<ColumnRef>, tests: seq<CriterionTest>,
    rows: seq<EntityId>, candidates: seq<EntityId>, sofar: Matched
  )
    requires |columns| == |tests| && Increasing(rows) && Increasing(candidates)
    requires forall row :: row in candidates ==> row in rows
    requires forall row :: row in rows && row !in candidates ==> RowMatches(rules, s, columns, tests, row, 0) == Ok(false)
    ensures WalkRows(rules, s, aggregate, columns, tests, candidates, sofar)
         == WalkRows(rules, s, aggregate, columns, tests, rows, sofar)
    decreases |rows|
  {
    if rows == [] {
      assert candidates == [] by { SomeElement(candidates); }
    } else {
      assert rows == [rows[0]] + rows[1..];
      if candidates != [] && candidates[0] == rows[0] {
        assert candidates == [candidates[0]] + candidates[1..];
        var next := WalkRow(rules, s, aggregate, columns, tests, rows[0], sofar);
        if next.Ok? {
          forall row | row in candidates[1..] ensures row in rows[1..] {
            assert row in candidates;
          }
          WalkOfCandidates(rules, s, aggregate, columns, tests, rows[1..], candidates[1..], next.value);
        }
      } else {
        if rows[0] in candidates {
          SameHead(rows, candidates);
          assert false;
        }
        WalkOfCandidates(rules, s, aggregate, columns, tests, rows[1..], candidates, sofar);
      }
    }
  }

  // ---- One conditional aggregate ----

  // One row: whether every criterion matches, with its value appended if so.
  method ConditionalRow(
    rules: Rules, s: Snapshot, aggregate: ConditionalAggregate, columns: seq<ColumnRef>, tests: seq<CriterionTest>,
    row: EntityId, ghost sofar: nat, values: seq<Float>
  ) returns (r: Result<(bool, seq<Float>)>)
    requires |columns| == |tests|
    ensures match r
      case Err(failure) => WalkRow(rules, s, aggregate, columns, tests, row, Matched(sofar, values)) == Err(failure)
      case Ok((matched, values')) =>
        WalkRow(rules, s, aggregate, columns, tests, row, Matched(sofar, values))
        == Ok(Matched(if matched then sofar + 1 else sofar, values'))
  {
    for k := 0 to |columns|
      invariant RowMatches(rules, s, columns, tests, row, 0) == RowMatches(rules, s, columns, tests, row, k)
    {
      var cell := CriterionCellOf(s, FieldRef(row, columns[k].field));
      if cell.Err? {
        return Err(cell.failure);
      }
      if !Matches(rules, tests[k], cell.value) {
        return Ok((false, values));
      }
    }
    if !aggregate.CountRows? {
      var cell := FieldRef(row, aggregate.column.field);
      if Stored(s.document, cell).Some? {
        if cell !in s.values {
          return Err(FailedDependencies({cell}));
        }
        return Ok((true, values + [s.values[cell].Get()]));
      }
    }
    assert values + [] == values;
    return Ok((true, values));
  }

  // A conditional's aggregate over the candidate rows, or over all of them.
  method ConditionalOver(
    rules: Rules, s: Snapshot, aggregate: ConditionalAggregate, columns: seq<ColumnRef>, tests: seq<CriterionTest>,
    candidates: Option<seq<EntityId>>
  ) returns (r: Result<Number>)
    requires |columns| == |tests| && columns != []
    ensures r == FinishConditional(rules, aggregate,
      WalkRows(rules, s, aggregate, columns, tests,
               if candidates.Some? then candidates.value else RowOrder(s.document, columns[0].schema), Matched(0, [])))
  {
    var rows := if candidates.Some? then candidates.value else RowOrder(s.document, columns[0].schema);
    var matched: nat, values := 0, [];
    for i := 0 to |rows|
      invariant WalkRows(rules, s, aggregate, columns, tests, rows, Matched(0, []))
             == WalkRows(rules, s, aggregate, columns, tests, rows[i..], Matched(matched, values))
    {
      assert rows[i..][1..] == rows[i + 1..];
      var row := ConditionalRow(rules, s, aggregate, columns, tests, rows[i], matched, values);
      if row.Err? {
        return Err(row.failure);
      }
      if row.value.0 {
        matched := matched + 1;
      }
      values := row.value.1;
    }
    if aggregate.AverageOf? && values == [] {
      return Err(EmptyAggregate);
    }
    r := match aggregate
      case CountRows => Finish(rules.count(matched))
      case SumOf(_) => Finish(FoldFloats(rules.add, Finite(0), values))
      case AverageOf(_) => Finish(rules.average(values));
  }

  // What stays true of the cache while one formula is evaluated.
  twostate predicate CacheGrows(cache: ColumnCache, rules: Rules, s: Snapshot, pending: set<FieldRef>)
    reads cache
  {
    cache.Fresh(rules, s) && cache.Settled(s.document, pending) && cache.entries == old(cache.entries)
  }

  lemma DroppedRows(
    rules: Rules, s: Snapshot, aggregate: ConditionalAggregate, columns: seq<ColumnRef>, tests: seq<CriterionTest>,
    candidates: seq<EntityId>, index: CriterionIndex
  )
    requires |columns| == |tests| && columns != [] && TestKeys(rules, tests[0]).Some?
    requires IsIndexOf(rules, s, columns[0], index) && !index.scan
    requires AreCandidates(rules, s, columns[0], TestKeys(rules, tests[0]).value, candidates)
    ensures WalkRows(rules, s, aggregate, columns, tests, RowOrder(s.document, columns[0].schema), Matched(0, []))
         == WalkRows(rules, s, aggregate, columns, tests, candidates, Matched(0, []))
  {
    var rows := RowOrder(s.document, columns[0].schema);
    forall row | row in rows && row !in candidates
      ensures RowMatches(rules, s, columns, tests, row, 0) == Ok(false)
    {
      DroppedRowsAreRejected(rules, s, columns, tests, candidates, index, row);
    }
    WalkOfCandidates(rules, s, aggregate, columns, tests, rows, candidates, Matched(0, []));
  }

  // The rows a conditional needs to read, from the index of its first column.
  method CandidateRows(
    rules: Rules, s: Snapshot, cache: ColumnCache, ghost aggregate: ConditionalAggregate, columns: seq<ColumnRef>,
    tests: seq<CriterionTest>, ghost pending: set<FieldRef>
  ) returns (candidates: Option<seq<EntityId>>)
    requires |columns| == |tests| && columns != []
    requires cache.Fresh(rules, s) && cache.Settled(s.document, pending) && Slots(s.document, columns[0]) !! pending
    modifies cache`indexes
    ensures cache.Fresh(rules, s) && cache.Settled(s.document, pending)
    ensures candidates.Some? ==>
      WalkRows(rules, s, aggregate, columns, tests, RowOrder(s.document, columns[0].schema), Matched(0, []))
      == WalkRows(rules, s, aggregate, columns, tests, candidates.value, Matched(0, []))
  {
    var keys := TestKeys(rules, tests[0]);
    if keys.None? {
      return None;
    }
    cache.CriterionIndexOf(rules, s, columns[0], pending);
    var index := cache.indexes[columns[0]];
    candidates := Candidates(rules, s, columns[0], tests[0], keys.value, index);
    if candidates.Some? {
      DroppedRows(rules, s, aggregate, columns, tests, candidates.value, index);
    }
  }

  lemma FirstColumnIsKeyed(document: Document, key: ConditionalKey, pending: set<FieldRef>)
    requires key.criteria != [] && KeyCells(document, key) !! pending
    ensures Slots(document, key.criteria[0].0) !! pending
  {
    forall cell | cell in Slots(document, key.criteria[0].0) ensures cell !in pending {
      assert cell in KeyCells(document, key);
    }
  }

  // The tests resolved, a conditional through the memo and the index.
  method ConditionalWithTests(
    rules: Rules, s: Snapshot, cache: ColumnCache, aggregate: ConditionalAggregate, columns: seq<ColumnRef>,
    tests: seq<CriterionTest>, ghost pending: set<FieldRef>
  ) returns (r: Result<Number>)
    requires |columns| == |tests| && columns != []
    requires cache.Fresh(rules, s) && cache.Settled(s.document, pending)
    requires KeyCells(s.document, MakeKey(aggregate, columns, tests)) !! pending
    modifies cache`indexes, cache`conditionals
    ensures CacheGrows(cache, rules, s, pending)
    ensures r == ConditionalOf(rules, s, aggregate, columns, tests)
  {
    var key := MakeKey(aggregate, columns, tests);
    KeyParts(aggregate, columns, tests);
    if key in cache.conditionals {
      return cache.conditionals[key];
    }
    FirstColumnIsKeyed(s.document, key, pending);
    var candidates := CandidateRows(rules, s, cache, aggregate, columns, tests, pending);
    r := ConditionalOver(rules, s, aggregate, columns, tests, candidates);
    cache.Memoise(rules, s, key, r, pending);
  }

  // ---- One formula ----

  // Every column the expression names is filled, and none awaits a cell.
  ghost predicate ColumnsReady(entries: map<ColumnRef, ColumnValues>, document: Document, e: Expression, pending: set<FieldRef>) {
    Declares(e) && forall k :: k in Columns(e) ==> k in entries && Slots(document, k) !! pending
  }

  lemma ChildrenReady(entries: map<ColumnRef, ColumnValues>, document: Document, e: Expression, pending: set<FieldRef>)
    requires ColumnsReady(entries, document, e, pending)
    ensures forall c :: c in Children(e) ==> ColumnsReady(entries, document, c, pending)
  {
    forall c, k | c in Children(e) && k in Columns(c) ensures k in Columns(e) {}
  }

  lemma ConditionalCellsReady(
    entries: map<ColumnRef, ColumnValues>, document: Document, e: Expression, tests: seq<CriterionTest>, pending: set<FieldRef>
  )
    requires e.ColumnConditional? && e.criteria != [] && |tests| == |e.criteria|
    requires ColumnsReady(entries, document, e, pending)
    ensures KeyCells(document, MakeKey(e.aggregate, CriterionColumns(e.criteria), tests)) !! pending
  {
    var key := MakeKey(e.aggregate, CriterionColumns(e.criteria), tests);
    var schema := e.criteria[0].column.schema;
    forall cell | cell in KeyCells(document, key) ensures cell !in pending {
      if i, row :| 0 <= i < |key.criteria| && row in Rows(document, schema) && cell == FieldRef(row, key.criteria[i].0.field) {
        var k := ColumnRef(schema, e.criteria[i].column.field);
        assert k in Columns(e) && cell in Slots(document, k);
      } else {
        var l, row :| l in ValueColumn(e.aggregate) && row in Rows(document, schema) && cell == FieldRef(row, l.field);
        var k := ColumnRef(schema, l.field);
        assert k in Columns(e) && cell in Slots(document, k);
      }
    }
  }

  method Conditional(
    rules: Rules, s: Snapshot, owner: FieldRef, cache: ColumnCache, e: Expression, ghost pending: set<FieldRef>
  ) returns (r: Result<Number>)
    requires e.ColumnConditional?
    requires cache.Fresh(rules, s) && cache.Settled(s.document, pending)
    requires ColumnsReady(cache.entries, s.document, e, pending)
    modifies cache`indexes, cache`conditionals
    ensures CacheGrows(cache, rules, s, pending)
    ensures r == NumberOf(rules, s, owner, e)
    decreases e, 0, 2
  {
    if e.criteria == [] {
      return Err(TypeMismatch);
    }
    var tests := ResolveTests(rules, s, owner, cache, e, pending);
    if tests.Err? {
      return Err(tests.failure);
    }
    ConditionalCellsReady(cache.entries, s.document, e, tests.value, pending);
    r := ConditionalWithTests(rules, s, cache, e.aggregate, CriterionColumns(e.criteria), tests.value, pending);
  }

  // Every criterion's test, in order, or the first failure to resolve one.
  method ResolveTests(
    rules: Rules, s: Snapshot, owner: FieldRef, cache: ColumnCache, e: Expression, ghost pending: set<FieldRef>
  ) returns (r: Result<seq<CriterionTest>>)
    requires e.ColumnConditional?
    requires cache.Fresh(rules, s) && cache.Settled(s.document, pending)
    requires ColumnsReady(cache.entries, s.document, e, pending)
    modifies cache`indexes, cache`conditionals
    ensures CacheGrows(cache, rules, s, pending)
    ensures r == TestsOf(rules, s, owner, e.criteria, e)
    decreases e, 0, 1
  {
    ChildrenReady(cache.entries, s.document, e, pending);
    var tests: seq<CriterionTest> := [];
    assert e.criteria[0..] == e.criteria;
    PrependNothing(TestsOf(rules, s, owner, e.criteria, e));
    for i := 0 to |e.criteria|
      invariant CacheGrows(cache, rules, s, pending)
      invariant TestsOf(rules, s, owner, e.criteria, e) == PrependTests(tests, TestsOf(rules, s, owner, e.criteria[i..], e))
    {
      TestsOfSuffix(rules, s, owner, e, i);
      assert e.criteria[i].operand.Some? ==> e.criteria[i].operand.value in Children(e);
      var test := CriterionTestFor(rules, s, owner, cache, e.criteria[i], e, pending);
      if test.Err? {
        return Err(test.failure);
      }
      PrependOne(tests, test.value, TestsOf(rules, s, owner, e.criteria[i + 1..], e));
      tests := tests + [test.value];
    }
    assert e.criteria[|e.criteria|..] == [] && tests + [] == tests;
    r := Ok(tests);
  }

  lemma TestsOfSuffix(rules: Rules, s: Snapshot, owner: FieldRef, e: Expression, i: nat)
    requires e.ColumnConditional? && i < |e.criteria|
    ensures forall k :: k in e.criteria && k.operand.Some? ==> k.operand.value < e
    ensures var first := TestOf(rules, s, owner, e.criteria[i], e);
      TestsOf(rules, s, owner, e.criteria[i..], e)
        == if first.Err? then Err(first.failure)
           else PrependTests([first.value], TestsOf(rules, s, owner, e.criteria[i + 1..], e))
  {
    var rest := e.criteria[i..];
    assert rest[0] == e.criteria[i] && rest[1..] == e.criteria[i + 1..];
    forall k | k in e.criteria && k.operand.Some? ensures k.operand.value < e {
      assert k.operand.value in Children(e);
    }
  }

  ghost function PrependTests(tests: seq<CriterionTest>, rest: Result<seq<CriterionTest>>): Result<seq<CriterionTest>> {
    match rest
    case Err(failure) => Err(failure)
    case Ok(more) => Ok(tests + more)
  }

  lemma PrependNothing(rest: Result<seq<CriterionTest>>)
    ensures PrependTests([], rest) == rest
  {
    if rest.Ok? {
      assert [] + rest.value == rest.value;
    }
  }

  lemma PrependOne(tests: seq<CriterionTest>, test: CriterionTest, rest: Result<seq<CriterionTest>>)
    ensures PrependTests(tests, PrependTests([test], rest)) == PrependTests(tests + [test], rest)
  {
    if rest.Ok? {
      assert tests + ([test] + rest.value) == tests + [test] + rest.value;
    }
  }

  method CriterionTestFor(
    rules: Rules, s: Snapshot, owner: FieldRef, cache: ColumnCache, criterion: ColumnCriterion, ghost parent: Expression,
    ghost pending: set<FieldRef>
  ) returns (r: Result<CriterionTest>)
    requires criterion.operand.Some? ==>
      criterion.operand.value < parent && ColumnsReady(cache.entries, s.document, criterion.operand.value, pending)
    requires cache.Fresh(rules, s) && cache.Settled(s.document, pending)
    modifies cache`indexes, cache`conditionals
    ensures CacheGrows(cache, rules, s, pending)
    ensures r == TestOf(rules, s, owner, criterion, parent)
    decreases parent, 0, 0
  {
    match criterion.operand
    case None =>
      r := if criterion.operator == Equal || criterion.operator == NotEqual then Ok(BlankTest(criterion.operator))
           else Err(TypeMismatch);
    case Some(e) =>
      if criterion.operator == Equal && IsCellReference(e) {
        r := ReferenceTest(rules, s, Target(owner, e));
      } else if e.Literal? {
        r := Ok(NumberTest(rules, criterion.operator, e.number.Get()));
      } else if criterion.operator == Equal {
        var number := EvaluateNumber(rules, s, owner, cache, e, pending);
        r := match number case Err(failure) => Err(failure) case Ok(n) => Ok(NumberTest(rules, Equal, n.Get()));
      } else {
        r := Err(TypeMismatch);
      }
  }

  method EvaluateNumber(
    rules: Rules, s: Snapshot, owner: FieldRef, cache: ColumnCache, e: Expression, ghost pending: set<FieldRef>
  ) returns (r: Result<Number>)
    requires cache.Fresh(rules, s) && cache.Settled(s.document, pending)
    requires ColumnsReady(cache.entries, s.document, e, pending)
    modifies cache`indexes, cache`conditionals
    ensures CacheGrows(cache, rules, s, pending)
    ensures r == NumberOf(rules, s, owner, e)
    decreases e, 1
  {
    ChildrenReady(cache.entries, s.document, e, pending);
    match e
    case Literal(number) => r := Ok(number);
    case Reference(reference) => r := ReferenceValueOf(s, reference);
    case SameRow(field) => r := ReferenceValueOf(s, FieldRef(owner.entity, field));
    case If(condition, thenValue, elseValue) =>
      assert Children(e)[0] == condition && Children(e)[1] == thenValue && Children(e)[2] == elseValue;
      var holds := EvaluateCondition(rules, s, owner, cache, condition, pending);
      if holds.Err? {
        return Err(holds.failure);
      }
      r := EvaluateNumber(rules, s, owner, cache, if holds.value then thenValue else elseValue, pending);
    case ColumnTotal(column) =>
      assert column in Columns(e);
      r := TotalOf(cache.entries[column]);
    case ColumnAggregate(kind, column) =>
      assert column in Columns(e);
      r := AggregateOf(rules, kind, cache.entries[column]);
    case ColumnConditional(_, _) => r := Conditional(rules, s, owner, cache, e, pending);
    case Round(operand, digits) =>
      assert Children(e)[0] == operand;
      var number := EvaluateNumber(rules, s, owner, cache, operand, pending);
      if number.Err? {
        return number;
      }
      r := RoundNumber(rules, number.value, digits);
    case Binary(binary, left, right) =>
      assert Children(e)[0] == left && Children(e)[1] == right;
      var l := EvaluateNumber(rules, s, owner, cache, left, pending);
      if l.Err? {
        return l;
      }
      var r' := EvaluateNumber(rules, s, owner, cache, right, pending);
      if r'.Err? {
        return r';
      }
      r := ApplyBinary(rules, binary, l.value, r'.value);
    case _ => r := Err(TypeMismatch);
  }

  method EvaluateCondition(
    rules: Rules, s: Snapshot, owner: FieldRef, cache: ColumnCache, e: Expression, ghost pending: set<FieldRef>
  ) returns (r: Result<bool>)
    requires cache.Fresh(rules, s) && cache.Settled(s.document, pending)
    requires ColumnsReady(cache.entries, s.document, e, pending)
    modifies cache`indexes, cache`conditionals
    ensures CacheGrows(cache, rules, s, pending)
    ensures r == ConditionOf(rules, s, owner, e)
    decreases e, 1
  {
    ChildrenReady(cache.entries, s.document, e, pending);
    match e
    case Compare(operator, left, right) =>
      assert Children(e)[0] == left && Children(e)[1] == right;
      var l := EvaluateNumber(rules, s, owner, cache, left, pending);
      if l.Err? {
        return Err(l.failure);
      }
      var r' := EvaluateNumber(rules, s, owner, cache, right, pending);
      if r'.Err? {
        return Err(r'.failure);
      }
      r := Ok(ApplyCompare(operator, l.value, r'.value));
    case Logical(connective, arguments) =>
      var result := connective.And?;
      for i := 0 to |arguments|
        invariant CacheGrows(cache, rules, s, pending)
        invariant ConditionsOf(rules, s, owner, connective, arguments, connective.And?, e)
               == ConditionsOf(rules, s, owner, connective, arguments[i..], result, e)
      {
        assert arguments[i..][0] == arguments[i] && arguments[i..][1..] == arguments[i + 1..];
        assert arguments[i] in Children(e);
        var holds := EvaluateCondition(rules, s, owner, cache, arguments[i], pending);
        if holds.Err? {
          return holds;
        }
        result := if connective.And? then result && holds.value else result || holds.value;
      }
      r := Ok(result);
    case Not(operand) =>
      assert Children(e)[0] == operand;
      var holds := EvaluateCondition(rules, s, owner, cache, operand, pending);
      r := if holds.Err? then holds else Ok(!holds.value);
    case IsBlank(operand) =>
      r := if IsCellReference(operand) then Ok(CellIsBlank(s.document, Target(owner, operand))) else Err(TypeMismatch);
    case _ => r := Err(TypeMismatch);
  }

  // ---- Failed references ----

  ghost function FailedInAny(rules: Rules, s: Snapshot, owner: FieldRef, nodes: seq<Expression>): set<FieldRef> {
    set n, r | n in nodes && r in FailedRequired(rules, s, owner, n) :: r
  }

  lemma FailedInConcat(rules: Rules, s: Snapshot, owner: FieldRef, a: seq<Expression>, b: seq<Expression>)
    ensures FailedInAny(rules, s, owner, a + b) == FailedInAny(rules, s, owner, a) + FailedInAny(rules, s, owner, b)
  {
  }

  lemma FailedInOne(rules: Rules, s: Snapshot, owner: FieldRef, e: Expression)
    ensures FailedInAny(rules, s, owner, [e]) == FailedRequired(rules, s, owner, e)
  {
  }

  function FailedColumns(columns: set<ColumnRef>, entries: map<ColumnRef, ColumnValues>): set<FieldRef> {
    set k | k in columns && k in entries && entries[k].firstFailed.Some? :: entries[k].firstFailed.value
  }

  // What a node adds itself, and the nodes it leaves to visit.
  lemma FailedHere(rules: Rules, s: Snapshot, owner: FieldRef, e: Expression, entries: map<ColumnRef, ColumnValues>)
    requires !IsCellReference(e) && !e.If? && !e.IsBlank?
    requires forall k :: k in OwnColumns(e) ==> k in entries && entries[k] == ReadColumn(rules, s, k)
    ensures FailedRequired(rules, s, owner, e)
         == FailedColumns(OwnColumns(e), entries) + FailedInAny(rules, s, owner, Children(e))
  {
    var own := set k, r | k in OwnColumns(e) && r in FirstFailed(rules, s, k) :: r;
    forall r ensures r in FailedColumns(OwnColumns(e), entries) <==> r in own {
      if r in FailedColumns(OwnColumns(e), entries) {
        var k :| k in OwnColumns(e) && k in entries && entries[k].firstFailed.Some? && entries[k].firstFailed.value == r;
        assert r in FirstFailed(rules, s, k);
      }
    }
  }

  // A walk with a stack over the nodes that are reached, collecting the failed
  // references among them.
  method FailedRequiredReferences(
    rules: Rules, s: Snapshot, owner: FieldRef, cache: ColumnCache, e: Expression, ghost pending: set<FieldRef>
  ) returns (references: set<FieldRef>)
    requires cache.Fresh(rules, s) && cache.Settled(s.document, pending)
    requires ColumnsReady(cache.entries, s.document, e, pending)
    modifies cache`indexes, cache`conditionals
    ensures CacheGrows(cache, rules, s, pending)
    ensures references == FailedRequired(rules, s, owner, e)
  {
    references := {};
    var nodes := [e];
    FailedInOne(rules, s, owner, e);
    while nodes != []
      invariant CacheGrows(cache, rules, s, pending)
      invariant forall n :: n in nodes ==> ColumnsReady(cache.entries, s.document, n, pending)
      invariant references + FailedInAny(rules, s, owner, nodes) == FailedRequired(rules, s, owner, e)
      decreases Sizes(nodes)
    {
      var node, rest := nodes[|nodes| - 1], nodes[..|nodes| - 1];
      assert nodes == rest + [node];
      ChildrenReady(cache.entries, s.document, node, pending);
      var found, next := FailedAtNode(rules, s, owner, cache, node, pending);
      WalkContinues(rules, s, owner, node, rest, found, next);
      references := references + found;
      nodes := rest + next;
    }
  }

  // Replacing a node by what remains below it shrinks the walk and keeps what
  // it finds.
  lemma WalkContinues(
    rules: Rules, s: Snapshot, owner: FieldRef, node: Expression, rest: seq<Expression>, found: set<FieldRef>, next: seq<Expression>
  )
    requires Sizes(next) <= Sizes(Children(node)) && found + FailedInAny(rules, s, owner, next) == FailedRequired(rules, s, owner, node)
    ensures Sizes(rest + next) < Sizes(rest + [node])
    ensures found + FailedInAny(rules, s, owner, rest + next) == FailedInAny(rules, s, owner, rest + [node])
  {
    FailedInConcat(rules, s, owner, rest, [node]);
    FailedInOne(rules, s, owner, node);
    SizesOfConcat(rest, [node]);
    SizeOfNode(node);
    FailedInConcat(rules, s, owner, rest, next);
    SizesOfConcat(rest, next);
  }

  lemma SizesOfUpToThree(a: Expression, b: Expression, c: Expression)
    ensures Sizes([a]) == Size(a)
    ensures Sizes([a, b]) == Size(a) + Size(b) && Sizes([a, c]) == Size(a) + Size(c)
    ensures Sizes([a, b, c]) == Size(a) + Size(b) + Size(c)
  {
    assert [a, b, c] == [a] + ([b] + [c]) && [a, b] == [a] + [b] && [a, c] == [a] + [c];
    SizesOfConcat([a], [b] + [c]);
    SizesOfConcat([b], [c]);
    SizesOfConcat([a], [b]);
    SizesOfConcat([a], [c]);
  }

  // One step of the walk: the failed references at a node and the nodes that
  // remain to be visited below it.
  method FailedAtNode(
    rules: Rules, s: Snapshot, owner: FieldRef, cache: ColumnCache, node: Expression, ghost pending: set<FieldRef>
  ) returns (found: set<FieldRef>, next: seq<Expression>)
    requires cache.Fresh(rules, s) && cache.Settled(s.document, pending)
    requires ColumnsReady(cache.entries, s.document, node, pending)
    modifies cache`indexes, cache`conditionals
    ensures CacheGrows(cache, rules, s, pending)
    ensures found + FailedInAny(rules, s, owner, next) == FailedRequired(rules, s, owner, node)
    ensures forall n :: n in next ==> n in Children(node)
    ensures Sizes(next) <= Sizes(Children(node))
  {
    found, next := {}, [];
    if IsCellReference(node) {
      if Target(owner, node) in s.failures {
        found := {Target(owner, node)};
      }
    } else if node.If? {
      var condition, thenValue, elseValue := node.condition, node.thenValue, node.elseValue;
      assert Children(node) == [condition, thenValue, elseValue];
      assert Children(node)[0] == condition;
      ChildrenReady(cache.entries, s.document, node, pending);
      var holds := EvaluateCondition(rules, s, owner, cache, condition, pending);
      next := if holds.Err? then [condition] else if holds.value then [condition, thenValue] else [condition, elseValue];
      SizesOfUpToThree(condition, thenValue, elseValue);
    } else if !node.IsBlank? {
      found := FailedColumns(OwnColumns(node), cache.entries);
      next := Children(node);
      FailedHere(rules, s, owner, node, cache.entries);
    }
  }
}
