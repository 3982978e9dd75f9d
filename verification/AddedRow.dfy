/**
 A row that only one side has contributes no changed field, so a formula that
 reads its column changes without a cause.
 */
module AddedRows {
  import opened Model
  import opened Ordered
  import opened Expressions
  import opened Evaluator
  import opened Pregraph
  import opened Graphs
  import opened DependencyGraphs
  import opened Systems
  import opened Solutions
  import opened Impacts

  const Counter := FieldRef(0, 0)
  const Added := FieldRef(1, 0)
  const Counted := ColumnRef(1, 0)

  // COUNT over a column of schema 1.
  const CountAll := ColumnAggregate(Count, Counted)

  const NumberField := FieldDefinition("", NumberType, false)
  const Schemas := map[0 := Schema("", map[0 := NumberField]), 1 := Schema("", map[0 := NumberField])]
  const CountingRow := Entity("", 0, map[0 := FormulaValue(CountAll)])
  const AddedRow := Entity("", 1, map[0 := NumberValue(Number(1))])

  // The same document without and with the counted row.
  const Empty := Document(Schemas, map[0 := CountingRow])
  const Filled := Document(Schemas, map[0 := CountingRow, 1 := AddedRow])

  lemma CountAllReads(owner: FieldRef)
    ensures DirectReferences(owner, CountAll) == {} && ReferenceUses(owner, CountAll, true) == {}
    ensures Columns(CountAll) == {Counted} && NumericColumns(CountAll) == {Counted} && TotalColumns(CountAll) == {}
  {
  }

  lemma CountAllShape(document: Document)
    requires document.schemas == Schemas
    ensures FormulaShapeFailure(document, CountAll) == None
  {
    assert Depths(CountAll, 1) == [1];
    WithinLimits([1], 0);
    CountAllReads(Counter);
    CountedExists(document);
    OneColumnExists(document, CountAll, Counted);
    ShapeIsRight(document, CountAll);
  }

  lemma CountedExists(document: Document)
    requires document.schemas == Schemas
    ensures ColumnFailureOf(document, Counted, true) == None
  {
  }

  lemma OneColumnExists(document: Document, e: Expression, k: ColumnRef)
    requires Columns(e) == {k} && NumericColumns(e) == {k} && ColumnFailureOf(document, k, true) == None
    ensures ColumnFailures(document, e) == map[]
  {
  }

  // What both documents have in common.
  ghost predicate Counts(document: Document) {
    && document.schemas == Schemas && Formulas(document) == {Counter} && FormulaAt(document, Counter) == CountAll
    && Counter in Nodes(document) && ReferenceFailureOf(document, Counter, true) == None
    && Counter !in Slots(document, Counted)
  }

  lemma BothCount()
    ensures Counts(Empty) && Counts(Filled)
  {
    assert Cells(Empty) == {Counter} && Cells(Filled) == {Counter, Added};
  }

  lemma CounterIsFree(document: Document)
    requires Counts(document)
    ensures FixedOutcome(document, Counter) == None
  {
    CountAllReads(Counter);
    CountAllShape(document);
    NoTargetsNoFailure(document, Counter);
    NoEdgesNoCycles(document, Counter);
  }

  lemma NothingFailedInColumn(rules: Rules, s: Snapshot, owner: FieldRef, e: Expression, k: ColumnRef)
    requires e == ColumnAggregate(Count, k) && ReadColumn(rules, s, k).firstFailed == None
    ensures FailedRequired(rules, s, owner, e) == {}
  {
    assert OwnColumns(e) == {k} && Children(e) == [];
    assert FirstFailed(rules, s, k) == {};
  }

  lemma CountIsNumber(rules: Rules, s: Snapshot, owner: FieldRef, e: Expression, k: ColumnRef, n: nat)
    requires e == ColumnAggregate(Count, k)
    requires ReadColumn(rules, s, k).firstMissing == None && |ReadColumn(rules, s, k).present| == n
    ensures NumberOf(rules, s, owner, e) == Finish(rules.count(n))
  {
  }

  // A count over cells that all have a value is their number.
  lemma CountOfValues(rules: Rules, s: Snapshot, owner: FieldRef, e: Expression, k: ColumnRef)
    requires e == ColumnAggregate(Count, k)
    requires var cells := ColumnCells(s.document, k); forall c :: c in cells ==> c in s.values && c !in s.failures
    ensures FormulaOutcome(rules, s, owner, e) == Finish(rules.count(|ColumnCells(s.document, k)|))
  {
    ReadsAll(rules, s, ColumnCells(s.document, k), NothingRead);
    NothingFailedInColumn(rules, s, owner, e, k);
    CountIsNumber(rules, s, owner, e, k, |ColumnCells(s.document, k)|);
  }

  lemma CounterOutcome(rules: Rules, s: Snapshot, cells: seq<FieldRef>)
    requires Counts(s.document) && Solves(rules, s) && ColumnCells(s.document, Counted) == cells
    requires forall c :: c in cells ==> c in s.values && c !in s.failures
    ensures Records(s, Counter, Finish(rules.count(|cells|)))
  {
    CounterIsFree(s.document);
    CountOfValues(rules, s, Counter, CountAll, Counted);
    assert RecordsOutcome(rules, s, Counter);
  }

  lemma {:induction false} ReadsAll(rules: Rules, s: Snapshot, cells: seq<FieldRef>, read: ColumnValues)
    requires forall c :: c in cells ==> c in s.values && c !in s.failures
    ensures var all := ReadCells(rules, s, cells, read);
      all.firstFailed == read.firstFailed && all.firstMissing == read.firstMissing && |all.present| == |read.present| + |cells|
  {
    if cells != [] {
      assert cells[0] in cells;
      ReadsAll(rules, s, cells[1..], ReadCell(rules, s, cells[0], read));
    }
  }

  lemma CountedCells()
    ensures ColumnCells(Empty, Counted) == [] && ColumnCells(Filled, Counted) == [Added]
  {
    assert Rows(Empty, 1) == {} && Rows(Filled, 1) == {1};
    IncreasingIsUnique(Ascending({}), []);
    IncreasingIsUnique(Ascending({1}), [1]);
    assert [1][1..] == [];
    assert NonBlank(Filled, [1][1..], 0) == [];
  }

  lemma AddedHasValue(rules: Rules, t: Snapshot)
    requires t.document == Filled && Solves(rules, t)
    ensures Added in t.values && Added !in t.failures
  {
    assert Added in Cells(Filled) && Added in Nodes(Filled);
    assert ReferenceFailureOf(Filled, Added, true) == None;
    NoTargetsNoFailure(Filled, Added);
    assert RecordsOutcome(rules, t, Added);
  }

  lemma NothingStoredChanged()
    ensures StoredChanges(Empty, Filled) == {}
  {
    assert Cells(Empty) == {Counter} && Cells(Filled) == {Counter, Added};
  }

  // The counts differ, and the list of changed fields is empty: the impact on
  // the counting formula is there, and names no cause.
  lemma AddedRowHasNoCause(rules: Rules, s: Snapshot, t: Snapshot, impacts: seq<Impact>)
    requires s.document == Empty && t.document == Filled && Solves(rules, s) && Solves(rules, t)
    requires AreImpacts(Empty, Filled, s.values, t.values, StoredChanges(Empty, Filled), impacts)
    requires rules.count(0).Finite? && rules.count(1).Finite? && rules.count(0) != rules.count(1)
    ensures exists i :: 0 <= i < |impacts| && impacts[i].field == Counter && impacts[i].causes == {}
  {
    BothCount();
    CountedCells();
    AddedHasValue(rules, t);
    CounterOutcome(rules, s, []);
    CounterOutcome(rules, t, [Added]);
    NothingStoredChanged();
    assert IsImpacted(Empty, Filled, s.values, t.values, Counter);
    assert Names(impacts, Counter);
    var i :| 0 <= i < |impacts| && impacts[i].field == Counter;
    assert IsImpactOf(Empty, Filled, s.values, t.values, {}, impacts[i]);
  }
}
