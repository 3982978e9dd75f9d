/**
 The counting schedule of acyclic formulas: a formula is ready when no cell it
 names and no column it reads is left to settle.
 */
module Scheduling {
  import opened Model
  import opened Expressions
  import opened Evaluator
  import opened Locality
  import opened ColumnCaches
  import opened Evaluation
  import opened Pregraph
  import opened Graphs
  import opened DependencyGraphs
  import opened Systems
  import opened Solutions

  // ---- Counting ----

  type FormulaCounts = map<FieldRef, nat>
  type ColumnCounts = map<ColumnRef, nat>

  function SlotsOf(v: Edges, k: ColumnRef): set<FieldRef> {
    if k in v.columnSlots then v.columnSlots[k] else {}
  }

  function WaitingCells(v: Edges, f: FieldRef, pending: set<FieldRef>): set<FieldRef> {
    if f in v.referenceUses then v.referenceUses[f] * pending else {}
  }

  // The columns a formula reads that still have an unresolved slot.
  function WaitingColumns(v: Edges, f: FieldRef, pending: set<FieldRef>): set<ColumnRef> {
    if f in v.columnUses then set k | k in v.columnUses[f] && SlotsOf(v, k) * pending != {} else {}
  }

  // How many subjects a formula awaits: cells it names, columns it reads.
  ghost function Awaited(v: Edges, f: FieldRef, pending: set<FieldRef>): nat {
    |WaitingCells(v, f, pending)| + |WaitingColumns(v, f, pending)|
  }

  ghost predicate ColumnCountsRight(v: Edges, pending: set<FieldRef>, columnCounts: ColumnCounts) {
    && (forall k :: k in columnCounts ==> columnCounts[k] == |SlotsOf(v, k) * pending|)
    && (forall f, k :: f in pending && f in v.columnUses && k in v.columnUses[f] ==> k in columnCounts)
  }

  // Every counter is the number of unresolved subjects, and the ready formulas
  // are the ones that await none.
  ghost predicate CountsRight(
    v: Edges, pending: set<FieldRef>, formulaCounts: FormulaCounts, columnCounts: ColumnCounts, ready: set<FieldRef>
  ) {
    && ColumnCountsRight(v, pending, columnCounts)
    && formulaCounts.Keys == pending
    && (forall f :: f in pending ==> formulaCounts[f] == Awaited(v, f, pending))
    && AreReady(formulaCounts, ready)
  }

  method RemainingCounts(v: Edges, remaining: set<FieldRef>)
      returns (formulaCounts: FormulaCounts, columnCounts: ColumnCounts, ready: set<FieldRef>)
    ensures CountsRight(v, remaining, formulaCounts, columnCounts, ready)
  {
    columnCounts := map k | k in (set f, l | f in remaining && f in v.columnUses && l in v.columnUses[f] :: l)
      :: |SlotsOf(v, k) * remaining|;
    assert ColumnCountsRight(v, remaining, columnCounts);
    formulaCounts := map f | f in remaining ::
      |WaitingCells(v, f, remaining)| + |AwaitedColumns(v, f, columnCounts)|;
    forall f | f in remaining ensures AwaitedColumns(v, f, columnCounts) == WaitingColumns(v, f, remaining) {
      AwaitedAreWaiting(v, f, remaining, columnCounts);
    }
    ready := set f | f in formulaCounts && formulaCounts[f] == 0;
  }

  // The columns of a formula with a positive count.
  function AwaitedColumns(v: Edges, f: FieldRef, columnCounts: ColumnCounts): set<ColumnRef> {
    if f in v.columnUses then set k | k in v.columnUses[f] && k in columnCounts && columnCounts[k] > 0 else {}
  }

  lemma AwaitedAreWaiting(v: Edges, f: FieldRef, remaining: set<FieldRef>, columnCounts: ColumnCounts)
    requires ColumnCountsRight(v, remaining, columnCounts) && f in remaining
    ensures AwaitedColumns(v, f, columnCounts) == WaitingColumns(v, f, remaining)
  {
    if f in v.columnUses {
      forall k | k in v.columnUses[f] ensures columnCounts[k] > 0 <==> SlotsOf(v, k) * remaining != {} {
        EmptyIsZero(SlotsOf(v, k) * remaining);
      }
    }
  }

  lemma EmptyIsZero<T>(s: set<T>)
    ensures |s| == 0 <==> s == {}
  {
  }

  // One release: every waiting reader counts down, and is ready at zero.
  method Release(readers: set<FieldRef>, counts: FormulaCounts, ready: set<FieldRef>, ghost target: FormulaCounts)
      returns (counts': FormulaCounts, ready': set<FieldRef>)
    requires target.Keys == counts.Keys
    requires forall f :: f in counts ==> counts[f] == target[f] + if f in readers then 1 else 0
    requires AreReady(counts, ready)
    ensures counts' == target
    ensures AreReady(counts', ready')
  {
    counts', ready' := counts, ready;
    var work := readers;
    while work != {}
      invariant work <= readers
      invariant counts'.Keys == counts.Keys
      invariant forall f :: f in counts ==> counts'[f] == target[f] + if f in work then 1 else 0
      invariant AreReady(counts', ready')
    {
      var reader :| reader in work;
      if reader in counts' {
        counts' := counts'[reader := counts'[reader] - 1];
        if counts'[reader] == 0 {
          ready' := ready' + {reader};
        }
      }
      work := work - {reader};
    }
  }

  ghost predicate AreReady(counts: FormulaCounts, ready: set<FieldRef>) {
    forall f :: f in ready <==> f in counts && counts[f] == 0
  }

  // ---- What settling one formula changes ----

  // The links of an exact graph the schedule relies on.
  ghost predicate Wired(v: Edges) {
    && v.referenceUses.Keys == v.columnUses.Keys
    && Inverts(v.cellReaders, v.referenceUses)
    && Inverts(v.columnReaders, v.columnUses)
    && forall k, f :: f in SlotsOf(v, k) <==> f in v.slotColumns && v.slotColumns[f] == k
  }

  lemma ExactIsWired(v: Edges, document: Document)
    requires Exact(v, document)
    ensures Wired(v) && v.referenceUses.Keys == Formulas(document)
  {
    forall k, f ensures f in SlotsOf(v, k) <==> f in v.slotColumns && v.slotColumns[f] == k {
      if k in v.columnSlots { assert ExactColumn(v.columnSlots, v.slotColumns, document, k); }
    }
  }

  function ReadersOf<K>(readers: map<K, set<FieldRef>>, key: K): set<FieldRef> {
    if key in readers then readers[key] else {}
  }

  // The column that f was the last unresolved slot of.
  function EmptiedReaders(v: Edges, f: FieldRef, rest: set<FieldRef>): set<FieldRef> {
    if f in v.slotColumns && SlotsOf(v, v.slotColumns[f]) * rest == {} then ReadersOf(v.columnReaders, v.slotColumns[f]) else {}
  }

  lemma CountWithout(a: set<FieldRef>, pending: set<FieldRef>, f: FieldRef)
    requires f in pending
    ensures |a * (pending - {f})| == |a * pending| - if f in a then 1 else 0
  {
    if f in a {
      assert a * pending == a * (pending - {f}) + {f};
    } else {
      assert a * pending == a * (pending - {f});
    }
  }

  lemma CellsWithout(v: Edges, pending: set<FieldRef>, f: FieldRef, g: FieldRef)
    requires Wired(v) && f in pending && g in v.referenceUses
    ensures |WaitingCells(v, g, pending - {f})|
         == |WaitingCells(v, g, pending)| - if g in ReadersOf(v.cellReaders, f) then 1 else 0
  {
    assert Has(v.cellReaders, f, g) <==> f in v.referenceUses[g];
    CountWithout(v.referenceUses[g], pending, f);
  }

  lemma ColumnWithout(v: Edges, pending: set<FieldRef>, f: FieldRef, k: ColumnRef)
    requires Wired(v) && f in pending
    ensures SlotsOf(v, k) * pending != {} <==>
      SlotsOf(v, k) * (pending - {f}) != {} || (f in v.slotColumns && v.slotColumns[f] == k)
  {
    if f in SlotsOf(v, k) {
      assert f in SlotsOf(v, k) * pending;
    } else {
      assert SlotsOf(v, k) * pending == SlotsOf(v, k) * (pending - {f});
    }
  }

  lemma ColumnsWithout(v: Edges, pending: set<FieldRef>, f: FieldRef, g: FieldRef)
    requires Wired(v) && f in pending && g in v.referenceUses
    ensures |WaitingColumns(v, g, pending - {f})|
         == |WaitingColumns(v, g, pending)| - if g in EmptiedReaders(v, f, pending - {f}) then 1 else 0
  {
    var rest := pending - {f};
    forall k ensures k in WaitingColumns(v, g, pending) <==>
      k in WaitingColumns(v, g, rest) || (k in v.columnUses[g] && f in v.slotColumns && v.slotColumns[f] == k)
    {
      ColumnWithout(v, pending, f, k);
    }
    if f in v.slotColumns {
      var k := v.slotColumns[f];
      assert Has(v.columnReaders, k, g) <==> k in v.columnUses[g];
      if g in EmptiedReaders(v, f, rest) {
        assert k !in WaitingColumns(v, g, rest);
        assert WaitingColumns(v, g, pending) == WaitingColumns(v, g, rest) + {k};
      } else {
        assert WaitingColumns(v, g, pending) == WaitingColumns(v, g, rest);
      }
    } else {
      assert WaitingColumns(v, g, pending) == WaitingColumns(v, g, rest);
    }
  }

  // What is left to do after a formula is settled: release its direct readers,
  // then, with the last slot of its column, the column's readers.
  method ReleaseDependents(
    v: Edges, f: FieldRef, ghost pending: set<FieldRef>,
    formulaCounts: FormulaCounts, columnCounts: ColumnCounts, ready: set<FieldRef>
  ) returns (formulaCounts': FormulaCounts, columnCounts': ColumnCounts, ready': set<FieldRef>)
    requires Wired(v) && pending <= v.referenceUses.Keys && f in pending
    requires ColumnCountsRight(v, pending, columnCounts)
    requires formulaCounts.Keys == pending - {f}
    requires forall g :: g in pending - {f} ==>
      formulaCounts[g] == Awaited(v, g, pending)
    requires AreReady(formulaCounts, ready)
    ensures CountsRight(v, pending - {f}, formulaCounts', columnCounts', ready')
  {
    ghost var between, after := CountsAfter(v, f, pending, formulaCounts);
    formulaCounts', ready' := Release(ReadersOf(v.cellReaders, f), formulaCounts, ready, between);
    var emptied;
    columnCounts', emptied := SettleSlot(v, f, pending, columnCounts);
    formulaCounts', ready' := Release(emptied, formulaCounts', ready', after);
  }

  ghost function Tabulate(keys: set<FieldRef>, count: FieldRef -> nat): (counts: FormulaCounts)
    ensures counts.Keys == keys && forall g :: g in keys ==> counts[g] == count(g)
  {
    map g | g in keys :: count(g)
  }

  // The counts once f is settled, and after the first of the two releases.
  lemma CountsAfter(v: Edges, f: FieldRef, pending: set<FieldRef>, formulaCounts: FormulaCounts)
      returns (between: FormulaCounts, after: FormulaCounts)
    requires Wired(v) && pending <= v.referenceUses.Keys && f in pending
    requires formulaCounts.Keys == pending - {f}
    requires forall g :: g in pending - {f} ==>
      formulaCounts[g] == Awaited(v, g, pending)
    ensures between.Keys == after.Keys == pending - {f}
    ensures forall g :: g in pending - {f} ==>
      after[g] == Awaited(v, g, pending - {f})
    ensures forall g :: g in pending - {f} ==> between[g] == after[g] + if g in EmptiedReaders(v, f, pending - {f}) then 1 else 0
    ensures forall g :: g in pending - {f} ==> formulaCounts[g] == between[g] + if g in ReadersOf(v.cellReaders, f) then 1 else 0
  {
    var rest := pending - {f};
    var emptied := EmptiedReaders(v, f, rest);
    after := Tabulate(rest, g => Awaited(v, g, rest));
    between := Tabulate(rest, g => Awaited(v, g, rest) + if g in emptied then 1 else 0);
    forall g | g in rest ensures formulaCounts[g] == between[g] + if g in ReadersOf(v.cellReaders, f) then 1 else 0 {
      AwaitedWithout(v, pending, f, g);
    }
  }

  lemma AwaitedWithout(v: Edges, pending: set<FieldRef>, f: FieldRef, g: FieldRef)
    requires Wired(v) && f in pending && g in v.referenceUses
    ensures Awaited(v, g, pending) == Awaited(v, g, pending - {f})
      + (if g in ReadersOf(v.cellReaders, f) then 1 else 0) + (if g in EmptiedReaders(v, f, pending - {f}) then 1 else 0)
  {
    CellsWithout(v, pending, f, g);
    ColumnsWithout(v, pending, f, g);
  }

  // Count down the column of a settled slot; its readers once it is empty.
  method SettleSlot(v: Edges, f: FieldRef, ghost pending: set<FieldRef>, columnCounts: ColumnCounts)
      returns (columnCounts': ColumnCounts, emptied: set<FieldRef>)
    requires Wired(v) && pending <= v.referenceUses.Keys && f in pending && ColumnCountsRight(v, pending, columnCounts)
    ensures ColumnCountsRight(v, pending - {f}, columnCounts')
    ensures forall g :: g in pending - {f} ==> (g in emptied <==> g in EmptiedReaders(v, f, pending - {f}))
  {
    columnCounts', emptied := columnCounts, {};
    forall k ensures |SlotsOf(v, k) * (pending - {f})|
      == |SlotsOf(v, k) * pending| - if f in v.slotColumns && v.slotColumns[f] == k then 1 else 0
    {
      CountWithout(SlotsOf(v, k), pending, f);
    }
    if f in v.slotColumns {
      var k := v.slotColumns[f];
      if k in columnCounts {
        columnCounts' := columnCounts[k := columnCounts[k] - 1];
        EmptyIsZero(SlotsOf(v, k) * (pending - {f}));
        if columnCounts'[k] == 0 {
          emptied := ReadersOf(v.columnReaders, k);
        }
      } else {
        forall g | g in pending - {f} ensures g !in ReadersOf(v.columnReaders, k) {
          assert Has(v.columnReaders, k, g) <==> k in v.columnUses[g];
        }
      }
    }
  }

  // ---- The pass ----

  // A formula that awaits nothing reads only settled cells.
  lemma ReadyReadsSettled(v: Edges, document: Document, pending: set<FieldRef>, f: FieldRef)
    requires Exact(v, document) && f in pending && f in Formulas(document) && Awaited(v, f, pending) == 0
    ensures Dependencies(document, f, FormulaAt(document, f)) !! pending
    ensures forall k :: k in Columns(FormulaAt(document, f)) ==> Slots(document, k) !! pending
  {
    EmptyIsZero(WaitingCells(v, f, pending));
    EmptyIsZero(WaitingColumns(v, f, pending));
    forall k | k in Columns(FormulaAt(document, f)) ensures Slots(document, k) !! pending {
      assert Has(v.columnReaders, k, f);
      assert ExactColumn(v.columnSlots, v.slotColumns, document, k);
      assert k !in WaitingColumns(v, f, pending);
    }
    assert DirectReferences(f, FormulaAt(document, f)) !! pending;
  }

  // A pending formula that is not ready reads a pending cell.
  lemma WaitingReadsPending(v: Edges, document: Document, pending: set<FieldRef>, f: FieldRef)
    requires Exact(v, document) && f in pending && f in Formulas(document) && Awaited(v, f, pending) > 0
    ensures exists d :: d in pending && d in Dependencies(document, f, FormulaAt(document, f))
  {
    if WaitingCells(v, f, pending) != {} {
      var d :| d in WaitingCells(v, f, pending);
      assert d in pending && d in Dependencies(document, f, FormulaAt(document, f));
    } else {
      EmptyIsZero(WaitingColumns(v, f, pending));
      var k :| k in WaitingColumns(v, f, pending);
      assert ExactColumn(v.columnSlots, v.slotColumns, document, k);
      var d :| d in SlotsOf(v, k) * pending;
      assert d in pending && d in Dependencies(document, f, FormulaAt(document, f));
    }
  }

  // The free nodes of a document are its acyclic formulas, with their reads.
  lemma FreeIsFormula(document: Document, f: FieldRef)
    requires f in SystemOf(document).free
    ensures f in Formulas(document) && SystemOf(document).free[f] == Dependencies(document, f, FormulaAt(document, f))
  {
    FreeNodeReads(document, f);
  }

  // The emptiness the code asserts at the end: acyclic formulas never wait for
  // each other forever.
  lemma NothingReadyMeansDone(
    y: System, oracle: Oracle, s: Snapshot, v: Edges, pending: set<FieldRef>, formulaCounts: FormulaCounts, columnCounts: ColumnCounts
  )
    requires WellPosed(y, oracle) && Pass(y, oracle, s, pending) && y == SystemOf(y.document) && Exact(v, y.document)
    requires CountsRight(v, pending, formulaCounts, columnCounts, {})
    ensures pending == {}
  {
    if pending != {} {
      SomethingIsReady(y, oracle, pending);
      var f :| f in pending && y.free[f] !! pending;
      FreeIsFormula(y.document, f);
      assert f !in {};
      WaitingReadsPending(v, y.document, pending, f);
      assert false;
    }
  }

  // ---- The cache outlives each recorded outcome ----

  lemma IndexSurvives(rules: Rules, s: Snapshot, t: Snapshot, k: ColumnRef, index: CriterionIndex)
    requires s.document == t.document && SameColumn(s, t, k) && IsIndexOf(rules, s, k, index)
    ensures IsIndexOf(rules, t, k, index)
  {
    forall row | row in Rows(s.document, k.schema)
      ensures CriterionCellOf(s, FieldRef(row, k.field)) == CriterionCellOf(t, FieldRef(row, k.field))
    {
      assert SameCell(s, t, FieldRef(row, k.field));
    }
    forall row, key | row in RowOrder(s.document, k.schema)
      ensures FiledUnder(rules, s, k, row, key) == FiledUnder(rules, t, k, row, key)
    {
      assert row in Rows(s.document, k.schema);
    }
  }

  lemma MemoSurvives(rules: Rules, s: Snapshot, t: Snapshot, key: ConditionalKey, f: FieldRef)
    requires s.document == t.document && (forall d :: d != f ==> AgreesAt(s, t, d))
    requires key.criteria != [] && f !in KeyCells(s.document, key)
    ensures ConditionalOf(rules, s, key.aggregate, KeyColumns(key), KeyTests(key))
         == ConditionalOf(rules, t, key.aggregate, KeyColumns(key), KeyTests(key))
  {
    var columns := KeyColumns(key);
    forall i, row | 0 <= i < |columns| && row in Rows(s.document, columns[0].schema)
      ensures SameCell(s, t, FieldRef(row, columns[i].field))
    {
      assert FieldRef(row, key.criteria[i].0.field) in KeyCells(s.document, key);
      assert AgreesAt(s, t, FieldRef(row, columns[i].field));
    }
    forall k, row | k in ValueColumn(key.aggregate) && row in Rows(s.document, columns[0].schema)
      ensures SameCell(s, t, FieldRef(row, k.field))
    {
      assert FieldRef(row, k.field) in KeyCells(s.document, key);
      assert AgreesAt(s, t, FieldRef(row, k.field));
    }
    SameConditional(rules, s, t, key.aggregate, columns, KeyTests(key));
  }

  lemma ColumnSurvives(s: Snapshot, t: Snapshot, k: ColumnRef, f: FieldRef)
    requires s.document == t.document && (forall d :: d != f ==> AgreesAt(s, t, d)) && f !in Slots(s.document, k)
    ensures SameColumn(s, t, k)
  {
    forall row | row in Rows(s.document, k.schema) ensures SameCell(s, t, FieldRef(row, k.field)) {
      assert FieldRef(row, k.field) in Slots(s.document, k);
      assert AgreesAt(s, t, FieldRef(row, k.field));
    }
  }

  // No cache entry was computed from a pending cell, so none goes stale when
  // one is settled.
  lemma CacheSurvives(cache: ColumnCache, rules: Rules, s: Snapshot, t: Snapshot, pending: set<FieldRef>, f: FieldRef)
    requires cache.Fresh(rules, s) && cache.Settled(s.document, pending) && f in pending
    requires s.document == t.document && forall d :: d != f ==> AgreesAt(s, t, d)
    ensures cache.Fresh(rules, t) && cache.Settled(t.document, pending - {f})
  {
    forall k | k in cache.entries ensures cache.entries[k] == ReadColumn(rules, t, k) {
      ColumnSurvives(s, t, k, f);
      SameReadColumn(rules, s, t, k);
    }
    forall k | k in cache.indexes ensures IsIndexOf(rules, t, k, cache.indexes[k]) {
      ColumnSurvives(s, t, k, f);
      IndexSurvives(rules, s, t, k, cache.indexes[k]);
    }
    forall key | key in cache.conditionals
      ensures key.criteria != []
      ensures cache.conditionals[key] == ConditionalOf(rules, t, key.aggregate, KeyColumns(key), KeyTests(key))
    {
      MemoSurvives(rules, s, t, key, f);
    }
  }

  // Evaluate one ready formula through the cache.
  method EvaluateReady(rules: Rules, s: Snapshot, cache: ColumnCache, f: FieldRef, e: Expression, ghost pending: set<FieldRef>)
      returns (outcome: Result<Number>)
    requires cache.Fresh(rules, s) && cache.Settled(s.document, pending) && Declares(e)
    requires forall k :: k in Columns(e) ==> Slots(s.document, k) !! pending
    modifies cache
    ensures cache.Fresh(rules, s) && cache.Settled(s.document, pending)
    ensures outcome == FormulaOutcome(rules, s, f, e)
    ensures IsFormula(s.document, f) && FormulaAt(s.document, f) == e ==> outcome == OracleOf(rules)(s, f)
  {
    var work := Columns(e);
    while work != {}
      invariant work <= Columns(e)
      invariant cache.Fresh(rules, s) && cache.Settled(s.document, pending)
      invariant Columns(e) - work <= cache.entries.Keys
    {
      var column :| column in work;
      cache.Fill(rules, s, column, pending);
      work := work - {column};
    }
    var failed := FailedRequiredReferences(rules, s, f, cache, e, pending);
    if failed == {} {
      outcome := EvaluateNumber(rules, s, f, cache, e, pending);
    } else {
      outcome := Err(FailedDependencies(failed));
    }
  }

  // What holds between two evaluations.
  ghost predicate Scheduled(
    y: System, oracle: Oracle, s: Snapshot, v: Edges, pending: set<FieldRef>,
    formulaCounts: FormulaCounts, columnCounts: ColumnCounts, ready: set<FieldRef>
  ) {
    Pass(y, oracle, s, pending) && CountsRight(v, pending, formulaCounts, columnCounts, ready)
  }

  lemma ReadyFormula(
    y: System, oracle: Oracle, s: Snapshot, v: Edges, pending: set<FieldRef>,
    formulaCounts: FormulaCounts, columnCounts: ColumnCounts, ready: set<FieldRef>, f: FieldRef
  )
    requires Scheduled(y, oracle, s, v, pending, formulaCounts, columnCounts, ready) && f in ready
    requires y == SystemOf(y.document) && Exact(v, y.document) && Coherent(y.document) && s.document == y.document
    ensures f in pending && f in y.free && f in Formulas(y.document) && y.free[f] !! pending
    ensures Declares(FormulaAt(y.document, f))
    ensures forall k :: k in Columns(FormulaAt(y.document, f)) ==> Slots(y.document, k) !! pending
  {
    FreeIsFormula(y.document, f);
    ReadyReadsSettled(v, y.document, pending, f);
  }

  // Take a settled formula out of the counts and release what awaits it.
  method Settle(
    v: Edges, f: FieldRef, ghost pending: set<FieldRef>, formulaCounts: FormulaCounts, columnCounts: ColumnCounts, ready: set<FieldRef>
  ) returns (formulaCounts': FormulaCounts, columnCounts': ColumnCounts, ready': set<FieldRef>)
    requires Wired(v) && pending <= v.referenceUses.Keys
    requires CountsRight(v, pending, formulaCounts, columnCounts, ready) && f in ready
    ensures CountsRight(v, pending - {f}, formulaCounts', columnCounts', ready')
  {
    var others, waiting := formulaCounts - {f}, ready - {f};
    assert AreReady(others, waiting);
    formulaCounts', columnCounts', ready' := ReleaseDependents(v, f, pending, others, columnCounts, waiting);
  }

  lemma OthersAgree(s: Snapshot, f: FieldRef, outcome: Result<Number>)
    ensures WithOutcome(s, f, outcome).document == s.document
    ensures forall d :: d != f ==> AgreesAt(s, WithOutcome(s, f, outcome), d)
  {
  }

  lemma PendingAreFormulas(y: System, oracle: Oracle, s: Snapshot, pending: set<FieldRef>)
    requires Pass(y, oracle, s, pending) && y == SystemOf(y.document)
    ensures pending <= Formulas(y.document)
  {
    forall f | f in pending ensures f in Formulas(y.document) {
      FreeIsFormula(y.document, f);
    }
  }

  ghost predicate OthersKept(pending: set<FieldRef>, s: Snapshot, t: Snapshot) {
    forall c :: c !in pending ==> AgreesAt(s, t, c)
  }

  lemma KeptAtStart(pending: set<FieldRef>, s: Snapshot)
    ensures OthersKept(pending, s, s)
  {
    forall c | c !in pending ensures AgreesAt(s, s, c) {}
  }

  lemma StillKept(pending: set<FieldRef>, s: Snapshot, t: Snapshot, u: Snapshot, f: FieldRef)
    requires OthersKept(pending, s, t) && f in pending && OthersKept({f}, t, u)
    ensures OthersKept(pending, s, u)
  {
    forall c | c !in pending ensures AgreesAt(s, u, c) {
      assert AgreesAt(s, t, c) && AgreesAt(t, u, c);
    }
  }

  // Settle one ready formula, whichever is picked.
  method EvaluateNext(
    rules: Rules, s: Snapshot, v: Edges, cache: ColumnCache, formulaCounts: FormulaCounts, columnCounts: ColumnCounts,
    ready: set<FieldRef>, ghost y: System, ghost pending: set<FieldRef>
  ) returns (s': Snapshot, formulaCounts': FormulaCounts, columnCounts': ColumnCounts, ready': set<FieldRef>, formula: FieldRef)
    requires Coherent(s.document) && Exact(v, s.document) && y == SystemOf(s.document) && ready != {}
    requires Scheduled(y, OracleOf(rules), s, v, pending, formulaCounts, columnCounts, ready)
    requires cache.Fresh(rules, s) && cache.Settled(s.document, pending)
    modifies cache
    ensures formula in pending && s'.document == s.document && OthersKept({formula}, s, s')
    ensures Scheduled(y, OracleOf(rules), s', v, pending - {formula}, formulaCounts', columnCounts', ready')
    ensures cache.Fresh(rules, s') && cache.Settled(s'.document, pending - {formula})
  {
    formula :| formula in ready;
    ReadyFormula(y, OracleOf(rules), s, v, pending, formulaCounts, columnCounts, ready, formula);
    PendingAreFormulas(y, OracleOf(rules), s, pending);
    var outcome := EvaluateReady(rules, s, cache, formula, FormulaAt(s.document, formula), pending);
    OthersAgree(s, formula, outcome);
    CacheSurvives(cache, rules, s, WithOutcome(s, formula, outcome), pending, formula);
    DocumentIsWellPosed(rules, s.document);
    RecordKeepsPass(y, OracleOf(rules), s, pending, formula);
    s' := WithOutcome(s, formula, outcome);
    ExactIsWired(v, s.document);
    formulaCounts', columnCounts', ready' := Settle(v, formula, pending, formulaCounts, columnCounts, ready);
  }

  // When nothing is ready any more, nothing is pending and every node is right.
  lemma NothingLeft(
    rules: Rules, y: System, s: Snapshot, v: Edges, pending: set<FieldRef>, formulaCounts: FormulaCounts, columnCounts: ColumnCounts
  )
    requires Coherent(s.document) && Exact(v, s.document) && y == SystemOf(s.document)
    requires Scheduled(y, OracleOf(rules), s, v, pending, formulaCounts, columnCounts, {})
    ensures pending == {} && Solves(rules, s)
  {
    DocumentIsWellPosed(rules, s.document);
    NothingReadyMeansDone(y, OracleOf(rules), s, v, pending, formulaCounts, columnCounts);
    PassDone(y, OracleOf(rules), s);
    SolvesIsSolution(rules, s);
  }

  // Evaluate every formula not failed yet, dependencies first. Each is settled
  // exactly once, whatever order ready formulas are taken in.
  method EvaluateRemainingFormulas(
    rules: Rules, document: Document, formulas: set<FieldRef>, v: Edges, values: ValueMap, failures: FailureMap
  ) returns (values': ValueMap, failures': FailureMap)
    requires Coherent(document) && Exact(v, document)
    requires Pass(SystemOf(document), OracleOf(rules), Snapshot(document, values, failures), set f | f in formulas && f !in failures)
    ensures Solves(rules, Snapshot(document, values', failures'))
    ensures OthersKept((set f | f in formulas && f !in failures),
                       Snapshot(document, values, failures), Snapshot(document, values', failures'))
  {
    var remaining := set f | f in formulas && f !in failures;
    var s := Snapshot(document, values, failures);
    var formulaCounts, columnCounts, ready := RemainingCounts(v, remaining);
    var cache := new ColumnCache();
    ghost var y, pending, start := SystemOf(document), remaining, s;
    KeptAtStart(remaining, s);
    while ready != {}
      invariant fresh(cache) && s.document == document
      invariant Scheduled(y, OracleOf(rules), s, v, pending, formulaCounts, columnCounts, ready)
      invariant cache.Fresh(rules, s) && cache.Settled(document, pending)
      invariant pending <= remaining && OthersKept(remaining, start, s)
      decreases pending
    {
      ghost var was := s;
      var formula;
      s, formulaCounts, columnCounts, ready, formula :=
        EvaluateNext(rules, s, v, cache, formulaCounts, columnCounts, ready, y, pending);
      StillKept(remaining, start, was, s, formula);
      pending := pending - {formula};
    }
    NothingLeft(rules, y, s, v, pending, formulaCounts, columnCounts);
    values', failures' := s.values, s.failures;
  }
}
