/**
 The retained dependency graph: seven cross-linked maps, with one edge per
 column a formula reads rather than one per row.
 */
module DependencyGraphs {
  import opened Model
  import opened Expressions
  import opened Graphs

  datatype Edges = Edges(
    referenceUses: map<FieldRef, set<FieldRef>>,
    columnUses: map<FieldRef, set<ColumnRef>>,
    cellReaders: map<FieldRef, set<FieldRef>>,
    columnReaders: map<ColumnRef, set<FieldRef>>,
    columnSlots: map<ColumnRef, set<FieldRef>>,
    slotColumns: map<FieldRef, ColumnRef>,
    entitySchemas: map<EntityId, SchemaId>
  )

  // ---- What the maps hold for a document ----

  ghost predicate Has<K(!new)>(readers: map<K, set<FieldRef>>, key: K, reader: FieldRef) {
    key in readers && reader in readers[key]
  }

  // `readers` inverts `uses`, except that `formula` is recorded under `keys`.
  ghost predicate InvertsBut<K(!new)>(
    readers: map<K, set<FieldRef>>, uses: map<FieldRef, set<K>>, formula: FieldRef, keys: set<K>
  ) {
    && (forall k :: k in readers ==> readers[k] != {})
    && (forall k, f :: f != formula ==> (Has(readers, k, f) <==> f in uses && k in uses[f]))
    && (forall k :: Has(readers, k, formula) <==> k in keys)
  }

  // An exact inverse with no empty sets.
  ghost predicate Inverts<K(!new)>(readers: map<K, set<FieldRef>>, uses: map<FieldRef, set<K>>) {
    && (forall k :: k in readers ==> readers[k] != {})
    && (forall k, f :: Has(readers, k, f) <==> f in uses && k in uses[f])
  }

  // A column's slots and their way back.
  ghost predicate ExactColumn(
    columnSlots: map<ColumnRef, set<FieldRef>>, slotColumns: map<FieldRef, ColumnRef>, document: Document, k: ColumnRef
  ) {
    && k in columnSlots && columnSlots[k] == Slots(document, k)
    && forall s :: s in columnSlots[k] ==> s in slotColumns && slotColumns[s] == k
  }

  // The slot maps while an update from `before` to `after` is under way: no
  // stale way back, and only columns whose rows moved may be out of date.
  ghost predicate SlotsUnderWay(
    columnSlots: map<ColumnRef, set<FieldRef>>, slotColumns: map<FieldRef, ColumnRef>, before: Document, after: Document
  ) {
    && (forall s :: s in slotColumns ==> slotColumns[s] in columnSlots && s in columnSlots[slotColumns[s]])
    && (forall k :: k in columnSlots ==> columnSlots[k] == Slots(before, k) || columnSlots[k] == Slots(after, k))
    && (forall k :: k in columnSlots && Rows(before, k.schema) == Rows(after, k.schema) ==>
          ExactColumn(columnSlots, slotColumns, after, k))
  }

  // The graph a fresh build makes for a document.
  ghost predicate Exact(v: Edges, document: Document) {
    && v.referenceUses.Keys == Formulas(document) == v.columnUses.Keys
    && (forall f :: f in v.referenceUses ==> v.referenceUses[f] == DirectReferences(f, FormulaAt(document, f)))
    && (forall f :: f in v.columnUses ==> v.columnUses[f] == Columns(FormulaAt(document, f)))
    && Inverts(v.cellReaders, v.referenceUses)
    && Inverts(v.columnReaders, v.columnUses)
    && v.columnSlots.Keys == v.columnReaders.Keys
    && SlotsUnderWay(v.columnSlots, v.slotColumns, document, document)
    && v.entitySchemas == map e | e in document.entities :: document.entities[e].schema
  }

  lemma SameInverse<K(!new)>(a: map<K, set<FieldRef>>, b: map<K, set<FieldRef>>, uses: map<FieldRef, set<K>>)
    requires Inverts(a, uses) && Inverts(b, uses)
    ensures a == b
  {
    forall k ensures k in a <==> k in b {
      if k in a { var f :| f in a[k]; assert Has(a, k, f); assert Has(b, k, f); }
      if k in b { var f :| f in b[k]; assert Has(b, k, f); assert Has(a, k, f); }
    }
    forall k | k in a ensures a[k] == b[k] {
      forall f ensures f in a[k] <==> f in b[k] { assert Has(a, k, f) <==> Has(b, k, f); }
    }
  }

  // ---- The expanded per-cell dependencies ----

  // Every cell a formula reads: the ones it names and every row of each column.
  function Dependencies(document: Document, owner: FieldRef, e: Expression): set<FieldRef> {
    DirectReferences(owner, e) + set k, s | k in Columns(e) && s in Slots(document, k) :: s
  }

  function DependencyMap(document: Document): Graph<FieldRef> {
    map f | f in Formulas(document) :: Dependencies(document, f, FormulaAt(document, f))
  }

  // dependencies_of and expanded_dependencies: the column edges expanded.
  function ExpandedDependencies(v: Edges): map<FieldRef, set<FieldRef>> {
    map f | f in v.referenceUses :: DependenciesOf(v, f)
  }

  function DependenciesOf(v: Edges, f: FieldRef): set<FieldRef>
    requires f in v.referenceUses
  {
    v.referenceUses[f]
    + if f in v.columnUses then set k, s | k in v.columnUses[f] && k in v.columnSlots && s in v.columnSlots[k] :: s else {}
  }

  // The formulas that name the cell, and those that read its column.
  function DirectDependents(v: Edges, cell: FieldRef): set<FieldRef> {
    (if cell in v.cellReaders then v.cellReaders[cell] else {})
    + if cell in v.slotColumns && v.slotColumns[cell] in v.columnReaders then v.columnReaders[v.slotColumns[cell]] else {}
  }

  // One column edge stands for exactly the per-row edges it replaces.
  lemma ExpansionIsExact(v: Edges, document: Document)
    requires Exact(v, document)
    ensures ExpandedDependencies(v) == DependencyMap(document)
  {
    forall f | f in v.referenceUses ensures DependenciesOf(v, f) == Dependencies(document, f, FormulaAt(document, f)) {
      OneExpansion(v, document, f);
    }
  }

  lemma OneExpansion(v: Edges, document: Document, f: FieldRef)
    requires Exact(v, document) && f in v.referenceUses
    ensures DependenciesOf(v, f) == Dependencies(document, f, FormulaAt(document, f))
  {
    forall k | k in v.columnUses[f] ensures k in v.columnSlots && v.columnSlots[k] == Slots(document, k) {
      assert Has(v.columnReaders, k, f);
      assert ExactColumn(v.columnSlots, v.slotColumns, document, k);
    }
  }

  lemma DependentsAreExact(v: Edges, document: Document, cell: FieldRef, f: FieldRef)
    requires Exact(v, document)
    ensures f in DirectDependents(v, cell) <==> Edge(DependencyMap(document), f, cell)
  {
    assert Has(v.cellReaders, cell, f) <==> f in v.referenceUses && cell in v.referenceUses[f];
    if cell in v.slotColumns {
      var k := v.slotColumns[cell];
      assert ExactColumn(v.columnSlots, v.slotColumns, document, k);
      assert Has(v.columnReaders, k, f) <==> f in v.columnUses && k in v.columnUses[f];
    }
    if f in Formulas(document) {
      forall k | k in v.columnUses[f] && cell in Slots(document, k) ensures cell in v.slotColumns && v.slotColumns[cell] == k {
        assert Has(v.columnReaders, k, f);
        assert ExactColumn(v.columnSlots, v.slotColumns, document, k);
      }
    }
  }

  lemma AllDependentsAreExact(v: Edges, document: Document, cell: FieldRef)
    requires Exact(v, document)
    ensures forall f :: f in DirectDependents(v, cell) <==> Edge(DependencyMap(document), f, cell)
  {
    forall f ensures f in DirectDependents(v, cell) <==> Edge(DependencyMap(document), f, cell) {
      DependentsAreExact(v, document, cell, f);
    }
  }

  // A document has one exact graph.
  lemma ExactIsUnique(v: Edges, w: Edges, document: Document)
    requires Exact(v, document) && Exact(w, document)
    ensures v == w
  {
    SameMap(v.referenceUses, w.referenceUses);
    SameMap(v.columnUses, w.columnUses);
    SameInverse(v.cellReaders, w.cellReaders, v.referenceUses);
    SameInverse(v.columnReaders, w.columnReaders, v.columnUses);
    SameSlots(v, w, document);
    SameWayBack(v, w, document);
    SameWayBack(w, v, document);
    SameMap(v.slotColumns, w.slotColumns);
  }

  lemma SameMap<K, V>(a: map<K, V>, b: map<K, V>)
    requires forall k :: k in a ==> k in b && b[k] == a[k]
    requires forall k :: k in b ==> k in a
    ensures a == b
  {
    assert a.Keys == b.Keys;
  }

  lemma SameSlots(v: Edges, w: Edges, document: Document)
    requires Exact(v, document) && Exact(w, document) && v.columnReaders == w.columnReaders
    ensures v.columnSlots == w.columnSlots
  {
    forall k | k in v.columnSlots ensures k in w.columnSlots && w.columnSlots[k] == v.columnSlots[k] {
      assert ExactColumn(v.columnSlots, v.slotColumns, document, k);
      assert ExactColumn(w.columnSlots, w.slotColumns, document, k);
    }
    SameMap(v.columnSlots, w.columnSlots);
  }

  lemma SameWayBack(v: Edges, w: Edges, document: Document)
    requires Exact(v, document) && Exact(w, document) && v.columnSlots == w.columnSlots
    ensures forall s :: s in v.slotColumns ==> s in w.slotColumns && w.slotColumns[s] == v.slotColumns[s]
  {
    forall s | s in v.slotColumns ensures s in w.slotColumns && w.slotColumns[s] == v.slotColumns[s] {
      assert ExactColumn(w.columnSlots, w.slotColumns, document, v.slotColumns[s]);
    }
  }

  // ---- Steps on the slot maps ----

  // A row has one schema, so two columns share no slot.
  lemma SlotHasOneColumn(document: Document, k: ColumnRef, l: ColumnRef, s: FieldRef)
    requires s in Slots(document, k) && s in Slots(document, l)
    ensures k == l
  {
  }

  lemma EnsureKeepsExact(
    columnSlots: map<ColumnRef, set<FieldRef>>, slotColumns: map<FieldRef, ColumnRef>, slotColumns': map<FieldRef, ColumnRef>,
    document: Document, k: ColumnRef, l: ColumnRef
  )
    requires k !in columnSlots && slotColumns' == slotColumns + map s | s in Slots(document, k) :: k
    requires l == k || ExactColumn(columnSlots, slotColumns, document, l)
    ensures ExactColumn(columnSlots[k := Slots(document, k)], slotColumns', document, l)
  {
    if l != k {
      forall s | s in columnSlots[l] ensures s in slotColumns' && slotColumns'[s] == l {
        if s in Slots(document, k) {
          SlotHasOneColumn(document, k, l, s);
          assert false;
        }
      }
    }
  }

  lemma EnsureKeepsSlots(
    columnSlots: map<ColumnRef, set<FieldRef>>, slotColumns: map<FieldRef, ColumnRef>, slotColumns': map<FieldRef, ColumnRef>,
    before: Document, after: Document, k: ColumnRef
  )
    requires SlotsUnderWay(columnSlots, slotColumns, before, after) && k !in columnSlots
    requires slotColumns' == slotColumns + map s | s in Slots(after, k) :: k
    ensures SlotsUnderWay(columnSlots[k := Slots(after, k)], slotColumns', before, after)
  {
    var grown := columnSlots[k := Slots(after, k)];
    forall l | l in grown && Rows(before, l.schema) == Rows(after, l.schema) ensures ExactColumn(grown, slotColumns', after, l) {
      assert l != k ==> ExactColumn(columnSlots, slotColumns, after, l);
      EnsureKeepsExact(columnSlots, slotColumns, slotColumns', after, k, l);
    }
    forall s | s in slotColumns' ensures slotColumns'[s] in grown && s in grown[slotColumns'[s]] {
      if s !in Slots(after, k) {
        assert s in slotColumns && slotColumns'[s] == slotColumns[s];
      }
    }
  }

  lemma DropKeepsSlots(
    columnSlots: map<ColumnRef, set<FieldRef>>, slotColumns: map<FieldRef, ColumnRef>, before: Document, after: Document, k: ColumnRef
  )
    requires SlotsUnderWay(columnSlots, slotColumns, before, after) && k in columnSlots
    ensures SlotsUnderWay(columnSlots - {k}, slotColumns - columnSlots[k], before, after)
  {
    var kept, back := columnSlots - {k}, slotColumns - columnSlots[k];
    forall l | l in kept && Rows(before, l.schema) == Rows(after, l.schema) ensures ExactColumn(kept, back, after, l) {
      assert ExactColumn(columnSlots, slotColumns, after, l);
      forall s | s in kept[l] ensures s in back {
        if s in columnSlots[k] {
          StableSlotIsOwned(before, after, k, l, s);
          assert false;
        }
      }
    }
  }

  // A slot of a column whose rows did not move belongs to no other column.
  lemma StableSlotIsOwned(before: Document, after: Document, k: ColumnRef, l: ColumnRef, s: FieldRef)
    requires Rows(before, l.schema) == Rows(after, l.schema)
    requires s in Slots(after, l) && (s in Slots(before, k) || s in Slots(after, k))
    ensures k == l
  {
    assert s.entity in Rows(before, l.schema) && s.entity in Rows(after, l.schema);
  }

  // ---- Steps on the reader maps ----

  function AddReader<K>(readers: map<K, set<FieldRef>>, key: K, reader: FieldRef): map<K, set<FieldRef>> {
    readers[key := (if key in readers then readers[key] else {}) + {reader}]
  }

  // Remove a reader, and the key with its last one.
  function RemoveReader<K>(readers: map<K, set<FieldRef>>, key: K, reader: FieldRef): map<K, set<FieldRef>> {
    if key !in readers then readers
    else if readers[key] - {reader} == {} then readers - {key}
    else readers[key := readers[key] - {reader}]
  }

  lemma AddReaderInverts<K(!new)>(readers: map<K, set<FieldRef>>, uses: map<FieldRef, set<K>>, f: FieldRef, keys: set<K>, key: K)
    requires InvertsBut(readers, uses, f, keys)
    ensures InvertsBut(AddReader(readers, key, f), uses, f, keys + {key})
  {
    var more := AddReader(readers, key, f);
    forall k, g ensures Has(more, k, g) <==> Has(readers, k, g) || (k == key && g == f) {}
  }

  lemma RemoveReaderInverts<K(!new)>(readers: map<K, set<FieldRef>>, uses: map<FieldRef, set<K>>, f: FieldRef, keys: set<K>, key: K)
    requires InvertsBut(readers, uses, f, keys)
    ensures InvertsBut(RemoveReader(readers, key, f), uses, f, keys - {key})
    ensures key in keys ==> key in readers
  {
    var fewer := RemoveReader(readers, key, f);
    forall k, g ensures Has(fewer, k, g) <==> Has(readers, k, g) && !(k == key && g == f) {
      if k == key && key in readers && readers[key] - {f} == {} {
        assert readers[key] <= readers[key] - {f} + {f};
      }
    }
    if key in keys { assert Has(readers, key, f); }
  }

  lemma InvertsIsInvertsBut<K(!new)>(readers: map<K, set<FieldRef>>, uses: map<FieldRef, set<K>>, f: FieldRef, keys: set<K>)
    requires keys == if f in uses then uses[f] else {}
    ensures Inverts(readers, uses) <==> InvertsBut(readers, uses, f, keys)
  {
  }

  // Once the readers are there, the uses may follow.
  lemma UsesRecorded<K(!new)>(readers: map<K, set<FieldRef>>, uses: map<FieldRef, set<K>>, f: FieldRef, keys: set<K>)
    requires InvertsBut(readers, uses, f, keys)
    ensures Inverts(readers, uses[f := keys])
  {
    forall k, g ensures Has(readers, k, g) <==> g in uses[f := keys] && k in uses[f := keys][g] {
      if g == f { assert Has(readers, k, f) <==> k in keys; }
    }
  }

  class DependencyGraph {
    var referenceUses: map<FieldRef, set<FieldRef>>
    var columnUses: map<FieldRef, set<ColumnRef>>
    var cellReaders: map<FieldRef, set<FieldRef>>
    var columnReaders: map<ColumnRef, set<FieldRef>>
    var columnSlots: map<ColumnRef, set<FieldRef>>
    var slotColumns: map<FieldRef, ColumnRef>
    var entitySchemas: map<EntityId, SchemaId>

    function View(): Edges
      reads this
    {
      Edges(referenceUses, columnUses, cellReaders, columnReaders, columnSlots, slotColumns, entitySchemas)
    }

    // Consistent while an update from `before` to `after` is under way.
    ghost predicate UnderWay(before: Document, after: Document)
      reads this
    {
      && referenceUses.Keys == columnUses.Keys
      && Inverts(cellReaders, referenceUses)
      && Inverts(columnReaders, columnUses)
      && columnSlots.Keys == columnReaders.Keys
      && SlotsUnderWay(columnSlots, slotColumns, before, after)
    }

    // The empty graph.
    constructor ()
      ensures View() == Edges(map[], map[], map[], map[], map[], map[], map[])
    {
      referenceUses, columnUses, cellReaders, columnReaders := map[], map[], map[], map[];
      columnSlots, slotColumns, entitySchemas := map[], map[], map[];
    }

    // Fill a read column's slots once: every row of its schema, blank or not,
    // each leading back to it. A column that has slots keeps them, and so do the
    // others.
    method EnsureColumnSlots(document: Document, column: ColumnRef, ghost before: Document)
      requires SlotsUnderWay(columnSlots, slotColumns, before, document)
      modifies this`columnSlots, this`slotColumns
      ensures SlotsUnderWay(columnSlots, slotColumns, before, document)
      ensures old(column in columnSlots) ==> columnSlots == old(columnSlots) && slotColumns == old(slotColumns)
      ensures old(column !in columnSlots) ==>
        && ExactColumn(columnSlots, slotColumns, document, column)
        && columnSlots == old(columnSlots)[column := Slots(document, column)]
        && forall s :: s !in Slots(document, column) ==>
             && (s in slotColumns <==> s in old(slotColumns))
             && (s in slotColumns ==> slotColumns[s] == old(slotColumns)[s])
    {
      if column in columnSlots {
        return;
      }
      var slots := Slots(document, column);
      PointBack(slots, column);
      EnsureKeepsSlots(columnSlots, old(slotColumns), slotColumns, before, document, column);
      columnSlots := columnSlots[column := slots];
    }

    method PointBack(slots: set<FieldRef>, column: ColumnRef)
      modifies this`slotColumns
      ensures slotColumns == old(slotColumns) + map s | s in slots :: column
    {
      var work := slots;
      while work != {}
        invariant work <= slots
        invariant slotColumns == old(slotColumns) + map s | s in slots - work :: column
      {
        var slot :| slot in work;
        slotColumns := slotColumns[slot := column];
        work := work - {slot};
      }
      assert slots - {} == slots;
    }

    // Drop a column's slots and their way back.
    method DropColumnSlots(column: ColumnRef, ghost before: Document, ghost after: Document)
      requires SlotsUnderWay(columnSlots, slotColumns, before, after)
      modifies this`columnSlots, this`slotColumns
      ensures SlotsUnderWay(columnSlots, slotColumns, before, after)
      ensures columnSlots == old(columnSlots) - {column}
    {
      if column !in columnSlots {
        assert columnSlots - {column} == columnSlots;
        return;
      }
      DropKeepsSlots(columnSlots, slotColumns, before, after, column);
      var slots := columnSlots[column];
      columnSlots := columnSlots - {column};
      ForgetSlots(slots);
    }

    method ForgetSlots(slots: set<FieldRef>)
      modifies this`slotColumns
      ensures slotColumns == old(slotColumns) - slots
    {
      var work := slots;
      while work != {}
        invariant work <= slots
        invariant slotColumns == old(slotColumns) - (slots - work)
      {
        var slot :| slot in work;
        slotColumns := slotColumns - {slot};
        assert slots - (work - {slot}) == slots - work + {slot};
        work := work - {slot};
      }
      assert slots - {} == slots;
    }

    method RecordCellReads(formula: FieldRef, references: set<FieldRef>)
      requires InvertsBut(cellReaders, referenceUses, formula, {})
      modifies this`cellReaders
      ensures InvertsBut(cellReaders, referenceUses, formula, references)
    {
      var work := references;
      while work != {}
        invariant work <= references
        invariant InvertsBut(cellReaders, referenceUses, formula, references - work)
      {
        var reference :| reference in work;
        AddReaderInverts(cellReaders, referenceUses, formula, references - work, reference);
        cellReaders := AddReader(cellReaders, reference, formula);
        assert references - work + {reference} == references - (work - {reference});
        work := work - {reference};
      }
      assert references - {} == references;
    }

    method ForgetCellReads(formula: FieldRef, references: set<FieldRef>)
      requires InvertsBut(cellReaders, referenceUses, formula, references)
      modifies this`cellReaders
      ensures InvertsBut(cellReaders, referenceUses, formula, {})
    {
      var work := references;
      while work != {}
        invariant InvertsBut(cellReaders, referenceUses, formula, work)
      {
        var reference :| reference in work;
        RemoveReaderInverts(cellReaders, referenceUses, formula, work, reference);
        cellReaders := RemoveReader(cellReaders, reference, formula);
        work := work - {reference};
      }
    }

    method RecordColumnReads(document: Document, formula: FieldRef, columns: set<ColumnRef>, ghost before: Document)
      requires InvertsBut(columnReaders, columnUses, formula, {})
      requires columnSlots.Keys == columnReaders.Keys && SlotsUnderWay(columnSlots, slotColumns, before, document)
      modifies this`columnReaders, this`columnSlots, this`slotColumns
      ensures InvertsBut(columnReaders, columnUses, formula, columns)
      ensures columnSlots.Keys == columnReaders.Keys && SlotsUnderWay(columnSlots, slotColumns, before, document)
    {
      var work := columns;
      while work != {}
        invariant work <= columns
        invariant InvertsBut(columnReaders, columnUses, formula, columns - work)
        invariant columnSlots.Keys == columnReaders.Keys && SlotsUnderWay(columnSlots, slotColumns, before, document)
      {
        var column :| column in work;
        AddReaderInverts(columnReaders, columnUses, formula, columns - work, column);
        columnReaders := AddReader(columnReaders, column, formula);
        EnsureColumnSlots(document, column, before);
        assert columns - work + {column} == columns - (work - {column});
        work := work - {column};
      }
      assert columns - {} == columns;
    }

    // A column loses its slots with its last reader.
    method ForgetColumnReads(formula: FieldRef, columns: set<ColumnRef>, ghost before: Document, ghost after: Document)
      requires InvertsBut(columnReaders, columnUses, formula, columns)
      requires columnSlots.Keys == columnReaders.Keys && SlotsUnderWay(columnSlots, slotColumns, before, after)
      modifies this`columnReaders, this`columnSlots, this`slotColumns
      ensures InvertsBut(columnReaders, columnUses, formula, {})
      ensures columnSlots.Keys == columnReaders.Keys && SlotsUnderWay(columnSlots, slotColumns, before, after)
    {
      var work := columns;
      while work != {}
        invariant InvertsBut(columnReaders, columnUses, formula, work)
        invariant columnSlots.Keys == columnReaders.Keys && SlotsUnderWay(columnSlots, slotColumns, before, after)
      {
        var column :| column in work;
        RemoveReaderInverts(columnReaders, columnUses, formula, work, column);
        columnReaders := RemoveReader(columnReaders, column, formula);
        if column !in columnReaders {
          DropColumnSlots(column, before, after);
        }
        work := work - {column};
      }
    }

    method InsertEdges(
      document: Document, formula: FieldRef, references: set<FieldRef>, columns: set<ColumnRef>, ghost before: Document
    )
      requires UnderWay(before, document) && formula !in referenceUses
      modifies this
      ensures UnderWay(before, document)
      ensures referenceUses == old(referenceUses)[formula := references]
      ensures columnUses == old(columnUses)[formula := columns]
      ensures entitySchemas == old(entitySchemas)
    {
      InvertsIsInvertsBut(cellReaders, referenceUses, formula, {});
      RecordCellReads(formula, references);
      InvertsIsInvertsBut(columnReaders, columnUses, formula, {});
      RecordColumnReads(document, formula, columns, before);
      UsesRecorded(cellReaders, referenceUses, formula, references);
      UsesRecorded(columnReaders, columnUses, formula, columns);
      referenceUses := referenceUses[formula := references];
      columnUses := columnUses[formula := columns];
    }

    // Take out one formula's outgoing edges.
    method RemoveEdges(root: FieldRef, ghost before: Document, ghost after: Document)
      requires UnderWay(before, after)
      modifies this
      ensures UnderWay(before, after)
      ensures referenceUses == old(referenceUses) - {root} && columnUses == old(columnUses) - {root}
      ensures entitySchemas == old(entitySchemas)
    {
      if root !in referenceUses {
        assert referenceUses - {root} == referenceUses && columnUses - {root} == columnUses;
        return;
      }
      var references, columns := referenceUses[root], columnUses[root];
      InvertsIsInvertsBut(cellReaders, referenceUses, root, references);
      InvertsIsInvertsBut(columnReaders, columnUses, root, columns);
      referenceUses, columnUses := referenceUses - {root}, columnUses - {root};
      ForgetCellReads(root, references);
      ForgetColumnReads(root, columns, before, after);
      InvertsIsInvertsBut(cellReaders, referenceUses, root, {});
      InvertsIsInvertsBut(columnReaders, columnUses, root, {});
    }

    // Give one cell the outgoing edges it has in the new document, or none.
    method ReplaceFormula(document: Document, root: FieldRef, ghost before: Document)
      requires UnderWay(before, document)
      modifies this
      ensures UnderWay(before, document)
      ensures referenceUses == if IsFormula(document, root)
        then old(referenceUses)[root := DirectReferences(root, FormulaAt(document, root))]
        else old(referenceUses) - {root}
      ensures columnUses == if IsFormula(document, root)
        then old(columnUses)[root := Columns(FormulaAt(document, root))]
        else old(columnUses) - {root}
      ensures entitySchemas == old(entitySchemas)
    {
      RemoveEdges(root, before, document);
      if IsFormula(document, root) {
        var e := FormulaAt(document, root);
        InsertEdges(document, root, DirectReferences(root, e), Columns(e), before);
        assert (old(referenceUses) - {root})[root := DirectReferences(root, e)]
            == old(referenceUses)[root := DirectReferences(root, e)];
        assert (old(columnUses) - {root})[root := Columns(e)] == old(columnUses)[root := Columns(e)];
      }
    }

    // Bring the slots of every column whose rows may have changed up to date.
    // Dropping a column after another was refilled could take the way back of a
    // row that went from the one to the other, so dropping comes first.
    method RefreshColumnSlots(document: Document, columns: set<ColumnRef>, ghost before: Document)
      requires UnderWay(before, document)
      requires forall k :: k in columnSlots && Rows(before, k.schema) != Rows(document, k.schema) ==> k in columns
      modifies this`columnSlots, this`slotColumns
      ensures UnderWay(document, document)
    {
      ClearColumnSlots(columns, before, document);
      assert forall k :: k in columnSlots ==> ExactColumn(columnSlots, slotColumns, document, k);
      RefillColumnSlots(document, columns);
    }

    method ClearColumnSlots(columns: set<ColumnRef>, ghost before: Document, ghost after: Document)
      requires SlotsUnderWay(columnSlots, slotColumns, before, after)
      modifies this`columnSlots, this`slotColumns
      ensures SlotsUnderWay(columnSlots, slotColumns, before, after)
      ensures columnSlots == old(columnSlots) - columns
    {
      var work := columns;
      while work != {}
        invariant work <= columns
        invariant SlotsUnderWay(columnSlots, slotColumns, before, after)
        invariant columnSlots == old(columnSlots) - (columns - work)
      {
        var column :| column in work;
        DropColumnSlots(column, before, after);
        assert columns - (work - {column}) == columns - work + {column};
        work := work - {column};
      }
      assert columns - {} == columns;
    }

    method RefillColumnSlots(document: Document, columns: set<ColumnRef>)
      requires SlotsUnderWay(columnSlots, slotColumns, document, document)
      requires columnSlots.Keys == columnReaders.Keys - columns
      modifies this`columnSlots, this`slotColumns
      ensures SlotsUnderWay(columnSlots, slotColumns, document, document)
      ensures columnSlots.Keys == columnReaders.Keys
    {
      var work := columns;
      while work != {}
        invariant work <= columns
        invariant SlotsUnderWay(columnSlots, slotColumns, document, document)
        invariant columnSlots.Keys == columnReaders.Keys - work
      {
        var column :| column in work;
        if column in columnReaders {
          EnsureColumnSlots(document, column, document);
        }
        work := work - {column};
      }
    }

    // Note the schema the row has now; a row that is gone keeps its old note.
    method RememberEntity(document: Document, entity: EntityId)
      modifies this`entitySchemas
      ensures entitySchemas == if entity in document.entities
        then old(entitySchemas)[entity := document.entities[entity].schema] else old(entitySchemas)
    {
      if entity in document.entities {
        entitySchemas := entitySchemas[entity := document.entities[entity].schema];
      }
    }

    method ForgetEntity(entity: EntityId)
      modifies this`entitySchemas
      ensures entitySchemas == old(entitySchemas) - {entity}
    {
      entitySchemas := entitySchemas - {entity};
    }

    // The schema noted for a row and the one it has in the document.
    function SchemasOf(document: Document, entity: EntityId): set<SchemaId>
      reads this
    {
      (if entity in entitySchemas then {entitySchemas[entity]} else {})
      + if entity in document.entities then {document.entities[entity].schema} else {}
    }

    // The edges of some of a document's formulas.
    ghost predicate EdgesOf(document: Document, formulas: set<FieldRef>)
      reads this
    {
      && UnderWay(document, document)
      && referenceUses.Keys == formulas
      && (forall f :: f in formulas ==> IsFormula(document, f))
      && (forall f :: f in formulas ==> referenceUses[f] == DirectReferences(f, FormulaAt(document, f)))
      && (forall f :: f in formulas ==> columnUses[f] == Columns(FormulaAt(document, f)))
    }

    // DependencyGraph::new: the graph of a whole document.
    static method New(document: Document) returns (graph: DependencyGraph)
      ensures fresh(graph)
      ensures Exact(graph.View(), document)
    {
      graph := new DependencyGraph();
      graph.entitySchemas := map e | e in document.entities :: document.entities[e].schema;
      graph.InsertAll(document);
    }

    method InsertAll(document: Document)
      requires EdgesOf(document, {})
      modifies this
      ensures EdgesOf(document, Formulas(document)) && entitySchemas == old(entitySchemas)
    {
      var work := Formulas(document);
      while work != {}
        invariant work <= Formulas(document)
        invariant EdgesOf(document, Formulas(document) - work)
        invariant entitySchemas == old(entitySchemas)
      {
        var formula :| formula in work;
        var e := FormulaAt(document, formula);
        InsertEdges(document, formula, DirectReferences(formula, e), Columns(e), document);
        work := work - {formula};
      }
      assert Formulas(document) - {} == Formulas(document);
    }

    // The reverse transitive closure of the roots, the roots themselves only
    // when asked for.
    method ReverseClosure(roots: set<FieldRef>, includeRoots: bool, ghost document: Document) returns (affected: set<FieldRef>)
      requires Exact(View(), document)
      ensures forall f :: f in affected <==>
        (includeRoots || f !in roots) && exists r :: r in roots && Precedes(DependencyMap(document), f, r)
    {
      ghost var g, v := DependencyMap(document), View();
      var queue := Enqueue([], roots);
      affected := {};
      while queue != []
        invariant Closing(g, roots, includeRoots, queue, affected)
        decreases g.Keys - affected, |queue|
      {
        var dependents := DirectDependents(View(), queue[0]);
        var next := set d | d in dependents && d !in affected && (includeRoots || d !in roots);
        AllDependentsAreExact(v, document, queue[0]);
        var rest := Enqueue(queue[1..], next);
        ClosingStep(g, roots, includeRoots, queue, affected, dependents, next, rest);
        queue, affected := rest, affected + next;
      }
      ClosureIsExact(g, roots, affected, includeRoots);
    }
  }

  // A reverse search under way: only the queue still has dependents to add.
  ghost predicate Closing(
    g: Graph<FieldRef>, roots: set<FieldRef>, includeRoots: bool, queue: seq<FieldRef>, affected: set<FieldRef>
  ) {
    && affected <= g.Keys
    && (forall c :: c in queue ==> c in roots || c in affected)
    && (forall f :: f in affected ==> (includeRoots || f !in roots) && LeadsTo(g, f, roots))
    && (forall c :: (c in roots || c in affected) && c !in queue ==> DependentsFound(g, roots, includeRoots, affected, c))
  }

  ghost predicate DependentsFound(
    g: Graph<FieldRef>, roots: set<FieldRef>, includeRoots: bool, affected: set<FieldRef>, c: FieldRef
  ) {
    forall f :: Edge(g, f, c) ==> f in affected || (!includeRoots && f in roots)
  }

  lemma ClosingStep(
    g: Graph<FieldRef>, roots: set<FieldRef>, includeRoots: bool, queue: seq<FieldRef>, affected: set<FieldRef>,
    dependents: set<FieldRef>, next: set<FieldRef>, rest: seq<FieldRef>
  )
    requires queue != [] && Closing(g, roots, includeRoots, queue, affected)
    requires forall d :: d in dependents <==> Edge(g, d, queue[0])
    requires next == set d | d in dependents && d !in affected && (includeRoots || d !in roots)
    requires forall c :: c in rest <==> c in queue[1..] || c in next
    ensures Closing(g, roots, includeRoots, rest, affected + next)
    ensures if next == {} then affected + next == affected else g.Keys - (affected + next) < g.Keys - affected
  {
    assert queue == [queue[0]] + queue[1..];
    forall d | d in next ensures d in g && LeadsTo(g, d, roots) {
      StepLeadsTo(g, d, queue[0], roots);
    }
    forall c | (c in roots || c in affected + next) && c !in rest
      ensures DependentsFound(g, roots, includeRoots, affected + next, c)
    {
      if c != queue[0] {
        assert DependentsFound(g, roots, includeRoots, affected, c);
      }
    }
    if d :| d in next {
      assert d in g.Keys - affected && d !in g.Keys - (affected + next);
    }
  }

  ghost predicate LeadsTo(g: Graph<FieldRef>, f: FieldRef, roots: set<FieldRef>) {
    exists r :: r in roots && Precedes(g, f, r)
  }

  lemma StepLeadsTo(g: Graph<FieldRef>, d: FieldRef, field: FieldRef, roots: set<FieldRef>)
    requires Edge(g, d, field) && (field in roots || LeadsTo(g, field, roots))
    ensures LeadsTo(g, d, roots)
  {
    ReachesSelf(g, field);
    if field !in roots {
      var r :| r in roots && Precedes(g, field, r);
      PrecedesReaches(g, field, r);
    }
  }

  lemma ClosureIsExact(g: Graph<FieldRef>, roots: set<FieldRef>, affected: set<FieldRef>, includeRoots: bool)
    requires Closing(g, roots, includeRoots, [], affected)
    ensures forall f :: f in affected <==> (includeRoots || f !in roots) && exists r :: r in roots && Precedes(g, f, r)
  {
    forall f, r | r in roots && Precedes(g, f, r) && (includeRoots || f !in roots) ensures f in affected {
      ClosureIsComplete(g, roots, affected, includeRoots, f, r);
    }
  }

  lemma ClosureIsComplete(
    g: Graph<FieldRef>, roots: set<FieldRef>, affected: set<FieldRef>, includeRoots: bool, f: FieldRef, r: FieldRef
  )
    requires Closing(g, roots, includeRoots, [], affected)
    requires r in roots && Precedes(g, f, r) && (includeRoots || f !in roots)
    ensures f in affected
  {
    var m :| Edge(g, f, m) && Reaches(g, m, r);
    var kept := iset c | c in roots || c in affected;
    forall d, c | c in kept && Edge(g, d, c) ensures d in kept {
      assert DependentsFound(g, roots, includeRoots, affected, c);
    }
    ReachesCameFrom(g, kept, m, r);
    assert DependentsFound(g, roots, includeRoots, affected, m);
  }

  method Enqueue(queue: seq<FieldRef>, cells: set<FieldRef>) returns (r: seq<FieldRef>)
    ensures forall c :: c in r <==> c in queue || c in cells
    ensures cells == {} ==> r == queue
  {
    r := queue;
    var work := cells;
    while work != {}
      invariant work <= cells && (cells == {} ==> r == queue)
      invariant forall c :: c in r <==> c in queue || c in cells - work
    {
      var c :| c in work;
      r, work := r + [c], work - {c};
    }
  }
}
