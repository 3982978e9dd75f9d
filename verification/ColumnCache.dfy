/**
 The per-pass read cache: one read of each column, one key index of each first
 criterion column and one result of each conditional aggregate.
 */
module ColumnCaches {
  import opened Model
  import opened Expressions
  import opened Criteria
  import opened Ordered
  import opened Evaluator
  import opened Locality

  // For each key the increasing list of rows whose cell has it; `scan` when some
  // cell of the column may fail.
  datatype CriterionIndex = CriterionIndex(entries: map<CriterionKey, seq<EntityId>>, scan: bool)

  // What a conditional's rows depend on, never the formula that computes it.
  datatype ConditionalKey = ConditionalKey(aggregate: ConditionalAggregate, criteria: seq<(ColumnRef, CriterionTest)>)

  function KeyColumns(key: ConditionalKey): seq<ColumnRef> {
    seq(|key.criteria|, i requires 0 <= i < |key.criteria| => key.criteria[i].0)
  }

  function KeyTests(key: ConditionalKey): seq<CriterionTest> {
    seq(|key.criteria|, i requires 0 <= i < |key.criteria| => key.criteria[i].1)
  }

  function MakeKey(aggregate: ConditionalAggregate, columns: seq<ColumnRef>, tests: seq<CriterionTest>): ConditionalKey
    requires |columns| == |tests|
  {
    ConditionalKey(aggregate, seq(|columns|, i requires 0 <= i < |columns| => (columns[i], tests[i])))
  }

  lemma KeyParts(aggregate: ConditionalAggregate, columns: seq<ColumnRef>, tests: seq<CriterionTest>)
    requires |columns| == |tests|
    ensures KeyColumns(MakeKey(aggregate, columns, tests)) == columns
    ensures KeyTests(MakeKey(aggregate, columns, tests)) == tests
  {
  }

  // Whether an index files this row under this key.
  predicate FiledUnder(rules: Rules, s: Snapshot, column: ColumnRef, row: EntityId, key: CriterionKey) {
    match CriterionCellOf(s, FieldRef(row, column.field))
    case Ok(Some(cell)) => key in CellKeys(rules, cell)
    case _ => false
  }

  // The index of a prefix of a column's rows.
  ghost predicate Indexes(rules: Rules, s: Snapshot, column: ColumnRef, rows: seq<EntityId>, index: CriterionIndex) {
    && (forall key :: key in index.entries ==> Increasing(index.entries[key]))
    && (forall key, row :: key in index.entries && row in index.entries[key] ==>
          row in rows && FiledUnder(rules, s, column, row, key))
    && (forall key, row :: row in rows && FiledUnder(rules, s, column, row, key) ==>
          key in index.entries && row in index.entries[key])
    && (index.scan || forall row :: row in rows ==> CriterionCellOf(s, FieldRef(row, column.field)).Ok?)
  }

  ghost predicate IsIndexOf(rules: Rules, s: Snapshot, column: ColumnRef, index: CriterionIndex) {
    Indexes(rules, s, column, RowOrder(s.document, column.schema), index)
  }

  // Every cell a memoised conditional was computed from.
  ghost function KeyCells(document: Document, key: ConditionalKey): set<FieldRef>
    requires key.criteria != []
  {
    var rows := Rows(document, key.criteria[0].0.schema);
    (set i, row | 0 <= i < |key.criteria| && row in rows :: FieldRef(row, key.criteria[i].0.field))
    + set k, row | k in ValueColumn(key.aggregate) && row in rows :: FieldRef(row, k.field)
  }

  class ColumnCache {
    var entries: map<ColumnRef, ColumnValues>
    var indexes: map<ColumnRef, CriterionIndex>
    var conditionals: map<ConditionalKey, Result<Number>>

    constructor ()
      ensures entries == map[] && indexes == map[] && conditionals == map[]
    {
      entries, indexes, conditionals := map[], map[], map[];
    }

    // Every entry equals a fresh computation from the snapshot.
    ghost predicate Fresh(rules: Rules, s: Snapshot)
      reads this
    {
      && (forall k :: k in entries ==> entries[k] == ReadColumn(rules, s, k))
      && (forall k :: k in indexes ==> IsIndexOf(rules, s, k, indexes[k]))
      && (forall key :: key in conditionals ==>
            key.criteria != []
            && conditionals[key] == ConditionalOf(rules, s, key.aggregate, KeyColumns(key), KeyTests(key)))
    }

    // No entry was computed from a cell that is still pending.
    ghost predicate Settled(document: Document, pending: set<FieldRef>)
      reads this
    {
      && (forall k :: k in entries ==> Slots(document, k) !! pending)
      && (forall k :: k in indexes ==> Slots(document, k) !! pending)
      && (forall key :: key in conditionals ==> key.criteria != [] && KeyCells(document, key) !! pending)
    }

    // Read one column, at most once a pass.
    method Fill(rules: Rules, s: Snapshot, column: ColumnRef, ghost pending: set<FieldRef>)
      requires Fresh(rules, s) && Settled(s.document, pending) && Slots(s.document, column) !! pending
      modifies this`entries
      ensures Fresh(rules, s) && Settled(s.document, pending)
      ensures entries.Keys == old(entries.Keys) + {column}
    {
      if column in entries {
        return;
      }
      var cells := ColumnCells(s.document, column);
      var read := NothingRead;
      for i := 0 to |cells|
        invariant ReadCells(rules, s, cells, NothingRead) == ReadCells(rules, s, cells[i..], read)
        invariant entries == old(entries)
      {
        var reference := cells[i];
        if read.firstFailed == None && reference in s.failures {
          read := read.(firstFailed := Some(reference));
        }
        if reference in s.values {
          var value := s.values[reference].Get();
          read := read.(present := read.present + [value], total := rules.add(read.total, value));
        } else if read.firstMissing == None {
          read := read.(firstMissing := Some(reference));
        }
        assert cells[i..][1..] == cells[i + 1..];
      }
      entries := entries[column := read];
    }

    // Index one criterion column by cell key, at most once a pass.
    method CriterionIndexOf(rules: Rules, s: Snapshot, column: ColumnRef, ghost pending: set<FieldRef>)
      requires Fresh(rules, s) && Settled(s.document, pending) && Slots(s.document, column) !! pending
      modifies this`indexes
      ensures Fresh(rules, s) && Settled(s.document, pending)
      ensures column in indexes
    {
      if column in indexes {
        return;
      }
      var rows := RowOrder(s.document, column.schema);
      var index := CriterionIndex(map[], false);
      for i := 0 to |rows|
        invariant Indexes(rules, s, column, rows[..i], index)
        invariant indexes == old(indexes)
      {
        var row := rows[i];
        var cell := CriterionCellOf(s, FieldRef(row, column.field));
        ghost var before := index;
        if cell.Err? {
          index := index.(scan := true);
        } else if cell.value.Some? {
          index := FileRow(rules, row, cell.value.value, index);
        }
        IndexStep(rules, s, column, rows, i, before, index);
      }
      assert rows[..|rows|] == rows;
      indexes := indexes[column := index];
    }

    // Keep the result of one conditional for the rest of the pass.
    method Memoise(rules: Rules, s: Snapshot, key: ConditionalKey, result: Result<Number>, ghost pending: set<FieldRef>)
      requires Fresh(rules, s) && Settled(s.document, pending)
      requires key.criteria != [] && KeyCells(s.document, key) !! pending
      requires result == ConditionalOf(rules, s, key.aggregate, KeyColumns(key), KeyTests(key))
      modifies this`conditionals
      ensures Fresh(rules, s) && Settled(s.document, pending)
      ensures conditionals == old(conditionals)[key := result]
    {
      conditionals := conditionals[key := result];
    }
  }

  // File one row under each key of its cell.
  function FileRow(rules: Rules, row: EntityId, cell: CriterionCell, index: CriterionIndex): CriterionIndex {
    FileKeys(row, CellKeys(rules, cell), index)
  }

  function FileKeys(row: EntityId, keys: seq<CriterionKey>, index: CriterionIndex): CriterionIndex {
    if keys == [] then index
    else
      var filed := if keys[0] in index.entries then index.entries[keys[0]] else [];
      FileKeys(row, keys[1..], index.(entries := index.entries[keys[0] := filed + [row]]))
  }

  // A cell carries at most two keys, of different kinds.
  lemma FileRowFiles(rules: Rules, row: EntityId, cell: CriterionCell, index: CriterionIndex)
    ensures var after := FileRow(rules, row, cell, index);
      && after.scan == index.scan
      && after.entries.Keys == index.entries.Keys + (set key | key in CellKeys(rules, cell))
      && forall key :: key in after.entries ==>
           after.entries[key] == (if key in index.entries then index.entries[key] else [])
                                 + (if key in CellKeys(rules, cell) then [row] else [])
  {
    var keys := CellKeys(rules, cell);
    assert |keys| == 1 || (|keys| == 2 && keys[0] != keys[1]);
    var first := index.(entries := index.entries[keys[0] :=
      (if keys[0] in index.entries then index.entries[keys[0]] else []) + [row]]);
    assert FileRow(rules, row, cell, index) == FileKeys(row, keys[1..], first);
    if |keys| == 1 {
      assert FileKeys(row, keys[1..], first) == first;
    } else {
      var second := first.(entries := first.entries[keys[1] :=
        (if keys[1] in first.entries then first.entries[keys[1]] else []) + [row]]);
      assert keys[1..][0] == keys[1] && keys[1..][1..] == [];
      assert FileKeys(row, keys[1..], first) == FileKeys(row, [], second) == second;
    }
  }

  // Filing a later row keeps every list of rows increasing.
  lemma FiledIncreasing(
    rules: Rules, rows: seq<EntityId>, row: EntityId, cell: CriterionCell, before: CriterionIndex, after: CriterionIndex
  )
    requires after == FileRow(rules, row, cell, before)
    requires forall x :: x in rows ==> x < row
    requires forall key :: key in before.entries ==> Increasing(before.entries[key])
    requires forall key, x :: key in before.entries && x in before.entries[key] ==> x in rows
    ensures forall key :: key in after.entries ==> Increasing(after.entries[key])
  {
    FileRowFiles(rules, row, cell, before);
    forall key | key in after.entries ensures Increasing(after.entries[key]) {
      var listed := if key in before.entries then before.entries[key] else [];
      forall x | x in listed ensures x < row {
        assert x in rows;
      }
      AppendIncreasing(listed, row);
      assert listed + [] == listed;
    }
  }

  lemma FiledRow(
    rules: Rules, s: Snapshot, column: ColumnRef, rows: seq<EntityId>, row: EntityId, cell: CriterionCell,
    before: CriterionIndex, after: CriterionIndex
  )
    requires Indexes(rules, s, column, rows, before) && (forall x :: x in rows ==> x < row)
    requires CriterionCellOf(s, FieldRef(row, column.field)) == Ok(Some(cell)) && after == FileRow(rules, row, cell, before)
    ensures Indexes(rules, s, column, rows + [row], after)
  {
    FileRowFiles(rules, row, cell, before);
    FiledIncreasing(rules, rows, row, cell, before, after);
    assert forall key :: FiledUnder(rules, s, column, row, key) <==> key in CellKeys(rules, cell);
  }

  lemma UnfiledRow(
    rules: Rules, s: Snapshot, column: ColumnRef, rows: seq<EntityId>, row: EntityId, before: CriterionIndex, after: CriterionIndex
  )
    requires Indexes(rules, s, column, rows, before)
    requires after == if CriterionCellOf(s, FieldRef(row, column.field)).Err? then before.(scan := true) else before
    requires CriterionCellOf(s, FieldRef(row, column.field)).Err? || CriterionCellOf(s, FieldRef(row, column.field)).value.None?
    ensures Indexes(rules, s, column, rows + [row], after)
  {
    assert forall key :: !FiledUnder(rules, s, column, row, key);
  }

  lemma IndexStep(
    rules: Rules, s: Snapshot, column: ColumnRef, rows: seq<EntityId>, i: nat, before: CriterionIndex, after: CriterionIndex
  )
    requires i < |rows| && Increasing(rows) && Indexes(rules, s, column, rows[..i], before)
    requires match CriterionCellOf(s, FieldRef(rows[i], column.field))
      case Err(_) => after == before.(scan := true)
      case Ok(None) => after == before
      case Ok(Some(cell)) => after == FileRow(rules, rows[i], cell, before)
    ensures Indexes(rules, s, column, rows[..i + 1], after)
  {
    var row := rows[i];
    assert rows[..i + 1] == rows[..i] + [row];
    match CriterionCellOf(s, FieldRef(row, column.field)) {
      case Ok(Some(cell)) => FiledRow(rules, s, column, rows[..i], row, cell, before, after);
      case _ => UnfiledRow(rules, s, column, rows[..i], row, before, after);
    }
  }
}
