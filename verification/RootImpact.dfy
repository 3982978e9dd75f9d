/**
 The first half of a retained update: promote column readers to roots, edit the
 dependency graph in place, and close the dirty set under dependents.
 */
module RootImpact {
  import opened Model
  import opened Expressions
  import opened Graphs
  import opened DependencyGraphs
  import opened Coverage

  // ---- Promotion of column readers ----

  // The schemas a row has on either side of an edit.
  function SchemasAround(before: Document, after: Document, e: EntityId): set<SchemaId> {
    (if e in before.entities then {before.entities[e].schema} else {})
    + if e in after.entities then {after.entities[e].schema} else {}
  }

  function RootSchemas(before: Document, after: Document, roots: set<FieldRef>): set<SchemaId> {
    set r, k | r in roots && k in SchemasAround(before, after, r.entity) :: k
  }

  predicate ReadsColumnOf(document: Document, f: FieldRef, schemas: set<SchemaId>) {
    f in Formulas(document) && exists k :: k in Columns(FormulaAt(document, f)) && k.schema in schemas
  }

  // The roots, and every formula that read a column of a root's schema.
  function Promoted(before: Document, after: Document, roots: set<FieldRef>): set<FieldRef> {
    roots + set f | f in Formulas(before) && ReadsColumnOf(before, f, RootSchemas(before, after, roots))
  }

  // Schema-wide promotion misses no moved row: whoever is left out reads only
  // columns whose rows stayed.
  lemma UnpromotedColumnsUnmoved(before: Document, after: Document, roots: set<FieldRef>, f: FieldRef)
    requires Covers(before, after, roots) && f !in Promoted(before, after, roots)
    ensures ColumnsUnmoved(before, after, f)
  {
    if IsFormula(before, f) {
      InCells(before, f);
      assert !ReadsColumnOf(before, f, RootSchemas(before, after, roots));
      forall k | k in Columns(FormulaAt(before, f)) ensures Rows(before, k.schema) == Rows(after, k.schema) {
        assert k.schema !in RootSchemas(before, after, roots);
        if Rows(before, k.schema) != Rows(after, k.schema) {
          MovedSchemaIsNamed(before, after, roots, k.schema);
          assert false;
        }
      }
    }
  }

  lemma MovedSchemaIsNamed(before: Document, after: Document, roots: set<FieldRef>, schema: SchemaId)
    requires Covers(before, after, roots) && Rows(before, schema) != Rows(after, schema)
    ensures schema in RootSchemas(before, after, roots)
  {
    var e :| (e in Rows(before, schema)) != (e in Rows(after, schema));
    assert RowChanged(before, after, e);
    var r :| r in roots && r.entity == e;
    assert schema in SchemasAround(before, after, r.entity);
  }

  function ColumnReadersIn(v: Edges, columns: set<ColumnRef>, schemas: set<SchemaId>): set<FieldRef> {
    set k, f | k in columns && k in v.columnReaders && k.schema in schemas && f in v.columnReaders[k] :: f
  }

  lemma ReadersArePromoted(v: Edges, before: Document, after: Document, roots: set<FieldRef>)
    requires Exact(v, before)
    ensures roots + ColumnReadersIn(v, v.columnReaders.Keys, RootSchemas(before, after, roots)) == Promoted(before, after, roots)
  {
    var schemas := RootSchemas(before, after, roots);
    forall f ensures f in ColumnReadersIn(v, v.columnReaders.Keys, schemas) <==> f in Formulas(before) && ReadsColumnOf(before, f, schemas) {
      if f in ColumnReadersIn(v, v.columnReaders.Keys, schemas) {
        var k :| k in v.columnReaders && k.schema in schemas && f in v.columnReaders[k];
        assert Has(v.columnReaders, k, f);
      }
      if ReadsColumnOf(before, f, schemas) {
        var k :| k in Columns(FormulaAt(before, f)) && k.schema in schemas;
        assert Has(v.columnReaders, k, f);
      }
    }
  }

  lemma SchemasAreAround(graph: DependencyGraph, before: Document, after: Document, e: EntityId)
    requires graph.entitySchemas == map e | e in before.entities :: before.entities[e].schema
    ensures graph.SchemasOf(after, e) == SchemasAround(before, after, e)
  {
  }

  // with_column_total_roots.
  method WithColumnTotalRoots(document: Document, graph: DependencyGraph, roots: set<FieldRef>, ghost before: Document)
      returns (promoted: set<FieldRef>)
    requires Exact(graph.View(), before)
    ensures promoted == Promoted(before, document, roots)
  {
    promoted := roots;
    var schemas := set r, k | r in roots && k in graph.SchemasOf(document, r.entity) :: k;
    assert schemas == RootSchemas(before, document, roots) by {
      forall r | r in roots ensures graph.SchemasOf(document, r.entity) == SchemasAround(before, document, r.entity) {
        SchemasAreAround(graph, before, document, r.entity);
      }
    }
    var tracked := graph.columnSlots.Keys;
    var work := tracked;
    while work != {}
      invariant work <= tracked
      invariant promoted == roots + ColumnReadersIn(graph.View(), tracked - work, schemas)
    {
      var column :| column in work;
      ghost var done := tracked - work;
      if column.schema in schemas {
        promoted := promoted + graph.columnReaders[column];
      }
      work := work - {column};
      assert tracked - work == done + {column};
    }
    assert tracked - work == tracked;
    ReadersArePromoted(graph.View(), before, document, roots);
  }

  // ---- The graph between the two documents ----

  function FormulaOf(document: Document, f: FieldRef): Option<Expression> {
    if IsFormula(document, f) then Some(FormulaAt(document, f)) else None
  }

  function SchemaOf(document: Document, e: EntityId): Option<SchemaId> {
    if e in document.entities then Some(document.entities[e].schema) else None
  }

  // A formula's outgoing edges are those of its expression, or absent.
  ghost predicate EdgesFor(v: Edges, f: FieldRef, e: Option<Expression>) {
    && (f in v.referenceUses <==> e.Some?) && (f in v.columnUses <==> e.Some?)
    && (e.Some? ==> v.referenceUses[f] == DirectReferences(f, e.value) && v.columnUses[f] == Columns(e.value))
  }

  // The roots done so far have their new edges, the others still their old ones.
  ghost predicate Replaced(v: Edges, before: Document, after: Document, done: set<FieldRef>) {
    forall f {:trigger EdgesFor(v, f, FormulaOf(before, f))} {:trigger f in v.referenceUses} {:trigger f in done} ::
      EdgesFor(v, f, FormulaOf(if f in done then after else before, f))
  }

  ghost predicate KnownSchema(schemas: map<EntityId, SchemaId>, e: EntityId, schema: Option<SchemaId>) {
    (e in schemas <==> schema.Some?) && (schema.Some? ==> schemas[e] == schema.value)
  }

  // Rows named by a root done so far have their current schema; a removed row
  // keeps its old one until the slots are refreshed.
  ghost predicate Remembered(schemas: map<EntityId, SchemaId>, before: Document, after: Document, done: set<FieldRef>) {
    forall e {:trigger e in schemas} {:trigger NamesRow(done, e)} ::
      KnownSchema(schemas, e, SchemaOf(if NamesRow(done, e) && e in after.entities then after else before, e))
  }

  lemma ExactIsUnderWay(v: Edges, before: Document, after: Document)
    requires Exact(v, before)
    ensures SlotsUnderWay(v.columnSlots, v.slotColumns, before, after)
    ensures Replaced(v, before, after, {}) && Remembered(v.entitySchemas, before, after, {})
  {
    forall k | k in v.columnSlots && Rows(before, k.schema) == Rows(after, k.schema)
      ensures ExactColumn(v.columnSlots, v.slotColumns, after, k)
    {
      assert ExactColumn(v.columnSlots, v.slotColumns, before, k);
    }
    forall k | k in v.columnSlots ensures v.columnSlots[k] == Slots(before, k) {
      assert ExactColumn(v.columnSlots, v.slotColumns, before, k);
    }
    forall f ensures EdgesFor(v, f, FormulaOf(before, f)) {
      InCells(before, f);
    }
  }

  lemma ReplacedStep(v: Edges, v': Edges, before: Document, after: Document, done: set<FieldRef>, root: FieldRef)
    requires Replaced(v, before, after, done)
    requires v'.referenceUses == if IsFormula(after, root)
      then v.referenceUses[root := DirectReferences(root, FormulaAt(after, root))] else v.referenceUses - {root}
    requires v'.columnUses == if IsFormula(after, root)
      then v.columnUses[root := Columns(FormulaAt(after, root))] else v.columnUses - {root}
    ensures Replaced(v', before, after, done + {root})
  {
    forall f ensures EdgesFor(v', f, FormulaOf(if f in done + {root} then after else before, f)) {
      if f != root {
        assert EdgesFor(v, f, FormulaOf(if f in done then after else before, f));
      }
    }
  }

  lemma NamesOneMore(done: set<FieldRef>, root: FieldRef, e: EntityId)
    ensures NamesRow(done + {root}, e) <==> NamesRow(done, e) || root.entity == e
  {
    if NamesRow(done, e) {
      var r :| r in done && r.entity == e;
      assert r in done + {root};
    }
    if root.entity == e { assert root in done + {root}; }
  }

  lemma RememberedStep(
    schemas: map<EntityId, SchemaId>, schemas': map<EntityId, SchemaId>, before: Document, after: Document, done: set<FieldRef>,
    root: FieldRef
  )
    requires Remembered(schemas, before, after, done)
    requires schemas' == if root.entity in after.entities
      then schemas[root.entity := after.entities[root.entity].schema] else schemas
    ensures Remembered(schemas', before, after, done + {root})
  {
    forall e ensures KnownSchema(schemas', e, SchemaOf(if NamesRow(done + {root}, e) && e in after.entities then after else before, e)) {
      NamesOneMore(done, root, e);
      assert KnownSchema(schemas, e, SchemaOf(if NamesRow(done, e) && e in after.entities then after else before, e));
    }
  }

  // The schemas looked up before each row was remembered include both of it.
  ghost predicate Touches(touched: set<SchemaId>, before: Document, after: Document, done: set<FieldRef>) {
    forall r :: r in done ==> SchemasAround(before, after, r.entity) <= touched
  }

  lemma TouchesStep(
    graph: DependencyGraph, touched: set<SchemaId>, before: Document, after: Document, done: set<FieldRef>, root: FieldRef
  )
    requires Remembered(graph.entitySchemas, before, after, done) && Touches(touched, before, after, done)
    ensures Touches(touched + graph.SchemasOf(after, root.entity), before, after, done + {root})
  {
    var e := root.entity;
    assert KnownSchema(graph.entitySchemas, e, SchemaOf(if NamesRow(done, e) && e in after.entities then after else before, e));
    if NamesRow(done, e) {
      var r :| r in done && r.entity == e;
      assert SchemasAround(before, after, r.entity) <= touched;
    } else {
      assert SchemasAround(before, after, e) <= graph.SchemasOf(after, e);
    }
  }

  // Give every root its new edges and row schema, collecting the schemas whose
  // rows may have changed.
  method ReplaceRoots(graph: DependencyGraph, document: Document, roots: set<FieldRef>, ghost before: Document)
      returns (touched: set<SchemaId>)
    requires Exact(graph.View(), before)
    modifies graph
    ensures graph.UnderWay(before, document)
    ensures Replaced(graph.View(), before, document, roots)
    ensures Remembered(graph.entitySchemas, before, document, roots)
    ensures Touches(touched, before, document, roots)
  {
    ExactIsUnderWay(graph.View(), before, document);
    touched := {};
    var work := roots;
    assert roots - work == {};
    while work != {}
      invariant work <= roots && graph.UnderWay(before, document)
      invariant Replaced(graph.View(), before, document, roots - work)
      invariant Remembered(graph.entitySchemas, before, document, roots - work)
      invariant Touches(touched, before, document, roots - work)
    {
      var root :| root in work;
      ghost var done, v := roots - work, graph.View();
      TouchesStep(graph, touched, before, document, done, root);
      touched := touched + graph.SchemasOf(document, root.entity);
      graph.RememberEntity(document, root.entity);
      RememberedStep(v.entitySchemas, graph.entitySchemas, before, document, done, root);
      graph.ReplaceFormula(document, root, before);
      ReplacedStep(v, graph.View(), before, document, done, root);
      work := work - {root};
      assert roots - work == done + {root};
    }
    assert roots - work == roots;
  }

  ghost predicate Forgotten(was: map<EntityId, SchemaId>, now: map<EntityId, SchemaId>, roots: set<FieldRef>, document: Document) {
    && (forall e :: e in now <==> e in was && !(NamesRow(roots, e) && e !in document.entities))
    && (forall e :: e in now ==> now[e] == was[e])
  }

  // Forget the rows of the roots that are gone.
  method ForgetRemovedRows(graph: DependencyGraph, document: Document, roots: set<FieldRef>)
    modifies graph`entitySchemas
    ensures Forgotten(old(graph.entitySchemas), graph.entitySchemas, roots, document)
  {
    var work := roots;
    while work != {}
      invariant work <= roots
      invariant Forgotten(old(graph.entitySchemas), graph.entitySchemas, roots - work, document)
    {
      var root :| root in work;
      ghost var done := roots - work;
      if root.entity !in document.entities {
        graph.ForgetEntity(root.entity);
      }
      work := work - {root};
      assert roots - work == done + {root};
      forall e ensures NamesRow(roots - work, e) <==> NamesRow(done, e) || root.entity == e {
        NamesOneMore(done, root, e);
      }
    }
    assert roots - work == roots;
  }

  // ---- The graph of the new document ----

  // Whatever no root names is the same in both documents.
  lemma UnnamedRowStays(before: Document, after: Document, roots: set<FieldRef>, e: EntityId)
    requires Covers(before, after, roots) && !NamesRow(roots, e)
    ensures SchemaOf(before, e) == SchemaOf(after, e)
  {
    assert !RowChanged(before, after, e);
  }

  lemma SchemasAreRemembered(
    was: map<EntityId, SchemaId>, now: map<EntityId, SchemaId>, before: Document, after: Document, roots: set<FieldRef>,
    promoted: set<FieldRef>
  )
    requires Covers(before, after, roots) && roots <= promoted
    requires Remembered(was, before, after, promoted) && Forgotten(was, now, promoted, after)
    ensures now == map e | e in after.entities :: after.entities[e].schema
  {
    forall e ensures KnownSchema(now, e, SchemaOf(after, e)) {
      assert KnownSchema(was, e, SchemaOf(if NamesRow(promoted, e) && e in after.entities then after else before, e));
      if !NamesRow(promoted, e) {
        UnnamedRowStays(before, after, promoted, e) by { CoversMore(before, after, roots, promoted); }
      }
    }
    var expected := map e | e in after.entities :: after.entities[e].schema;
    forall e ensures e in now <==> e in expected { assert KnownSchema(now, e, SchemaOf(after, e)); }
    forall e | e in now ensures now[e] == expected[e] { assert KnownSchema(now, e, SchemaOf(after, e)); }
  }

  lemma CoversMore(before: Document, after: Document, roots: set<FieldRef>, promoted: set<FieldRef>)
    requires Covers(before, after, roots) && roots <= promoted
    ensures Covers(before, after, promoted)
  {
    forall e | RowChanged(before, after, e) ensures NamesRow(promoted, e) {
      var r :| r in roots && r.entity == e;
      assert r in promoted;
    }
    forall f, c: FieldRef | OutsideReference(after, promoted, f, c) && RowChanged(before, after, c.entity) ensures c in promoted {
      assert OutsideReference(after, roots, f, c);
    }
  }

  lemma FormulasAreReplaced(v: Edges, before: Document, after: Document, roots: set<FieldRef>)
    requires Covers(before, after, roots) && Replaced(v, before, after, roots)
    ensures v.referenceUses.Keys == Formulas(after) == v.columnUses.Keys
    ensures forall f :: f in v.referenceUses ==> v.referenceUses[f] == DirectReferences(f, FormulaAt(after, f))
    ensures forall f :: f in v.columnUses ==> v.columnUses[f] == Columns(FormulaAt(after, f))
  {
    forall f ensures EdgesFor(v, f, FormulaOf(after, f)) && (FormulaOf(after, f).Some? <==> f in Formulas(after)) {
      InCells(after, f);
      assert EdgesFor(v, f, FormulaOf(if f in roots then after else before, f));
    }
    forall f ensures f in v.referenceUses <==> f in Formulas(after) {
      assert EdgesFor(v, f, FormulaOf(after, f));
    }
    forall f ensures f in v.columnUses <==> f in Formulas(after) {
      assert EdgesFor(v, f, FormulaOf(after, f));
    }
    forall f | f in v.referenceUses
      ensures v.referenceUses[f] == DirectReferences(f, FormulaAt(after, f))
      ensures v.columnUses[f] == Columns(FormulaAt(after, f))
    {
      assert EdgesFor(v, f, FormulaOf(after, f));
    }
  }

  lemma TouchedColumnsSuffice(
    before: Document, after: Document, roots: set<FieldRef>, promoted: set<FieldRef>, touched: set<SchemaId>, schema: SchemaId
  )
    requires Covers(before, after, roots) && roots <= promoted && Touches(touched, before, after, promoted)
    requires Rows(before, schema) != Rows(after, schema)
    ensures schema in touched
  {
    MovedSchemaIsNamed(before, after, roots, schema);
    var r :| r in roots && schema in SchemasAround(before, after, r.entity);
    assert SchemasAround(before, after, r.entity) <= touched;
  }

  method RefreshTouched(
    graph: DependencyGraph, document: Document, touched: set<SchemaId>, ghost promoted: set<FieldRef>, ghost roots: set<FieldRef>,
    ghost before: Document
  )
    requires graph.UnderWay(before, document)
    requires Covers(before, document, roots) && roots <= promoted && Touches(touched, before, document, promoted)
    modifies graph`columnSlots, graph`slotColumns
    ensures graph.UnderWay(document, document)
  {
    var columns := set k | k in graph.columnSlots && k.schema in touched;
    forall k | k in graph.columnSlots && Rows(before, k.schema) != Rows(document, k.schema) ensures k in columns {
      TouchedColumnsSuffice(before, document, roots, promoted, touched, k.schema);
    }
    graph.RefreshColumnSlots(document, columns, before);
  }

  lemma EditedGraphIsExact(
    v: Edges, schemas: map<EntityId, SchemaId>, before: Document, after: Document, roots: set<FieldRef>, promoted: set<FieldRef>
  )
    requires Covers(before, after, roots) && roots <= promoted
    requires Replaced(v, before, after, promoted)
    requires Inverts(v.cellReaders, v.referenceUses) && Inverts(v.columnReaders, v.columnUses)
    requires v.columnSlots.Keys == v.columnReaders.Keys && SlotsUnderWay(v.columnSlots, v.slotColumns, after, after)
    requires Remembered(schemas, before, after, promoted) && Forgotten(schemas, v.entitySchemas, promoted, after)
    ensures Exact(v, after)
  {
    SchemasAreRemembered(schemas, v.entitySchemas, before, after, roots, promoted);
    CoversMore(before, after, roots, promoted);
    FormulasAreReplaced(v, before, after, promoted);
  }

  // Edit the graph in place. The result is the graph a fresh build would make,
  // even when a row moved between two tracked columns.
  method EditGraph(graph: DependencyGraph, document: Document, promoted: set<FieldRef>, ghost roots: set<FieldRef>, ghost before: Document)
    requires Exact(graph.View(), before)
    requires Covers(before, document, roots) && roots <= promoted
    modifies graph
    ensures Exact(graph.View(), document)
  {
    var touched := ReplaceRoots(graph, document, promoted, before);
    ghost var v := graph.View();
    RefreshTouched(graph, document, touched, promoted, roots, before);
    ForgetRemovedRows(graph, document, promoted);
    SameUses(v, graph.View(), before, document, promoted);
    EditedGraphIsExact(graph.View(), v.entitySchemas, before, document, roots, promoted);
  }

  lemma SameUses(v: Edges, w: Edges, before: Document, after: Document, done: set<FieldRef>)
    requires Replaced(v, before, after, done) && v.referenceUses == w.referenceUses && v.columnUses == w.columnUses
    ensures Replaced(w, before, after, done)
  {
    forall f ensures EdgesFor(w, f, FormulaOf(if f in done then after else before, f)) {
      assert EdgesFor(v, f, FormulaOf(if f in done then after else before, f));
    }
  }

  // ---- The dirty set ----

  ghost predicate Closes(g: Graph<FieldRef>, roots: set<FieldRef>, affected: set<FieldRef>) {
    forall f :: f in affected <==> f !in roots && LeadsTo(g, f, roots)
  }

  // A formula that is not promoted has the same edges in both documents.
  lemma UnpromotedEdges(before: Document, after: Document, roots: set<FieldRef>, f: FieldRef, d: FieldRef)
    requires Covers(before, after, roots) && f !in Promoted(before, after, roots)
    ensures Edge(DependencyMap(before), f, d) <==> Edge(DependencyMap(after), f, d)
  {
    InCells(before, f);
    InCells(after, f);
    assert Stored(before, f) == Stored(after, f);
    if IsFormula(before, f) {
      UnpromotedColumnsUnmoved(before, after, roots, f);
      var e := FormulaAt(before, f);
      forall k | k in Columns(e) ensures Slots(before, k) == Slots(after, k) {
        assert Rows(before, k.schema) == Rows(after, k.schema);
      }
      assert Dependencies(before, f, e) == Dependencies(after, f, e);
    }
  }

  // Two graphs that differ only in edges out of the roots have one reverse
  // closure of them.
  lemma ClosureSurvives(g: Graph<FieldRef>, h: Graph<FieldRef>, roots: set<FieldRef>, f: FieldRef)
    requires forall x, y :: x !in roots ==> (Edge(g, x, y) <==> Edge(h, x, y))
    requires f !in roots && LeadsTo(g, f, roots)
    ensures LeadsTo(h, f, roots)
  {
    var r :| r in roots && Precedes(g, f, r);
    var within := iset c | c in roots || LeadsTo(h, c, roots);
    forall x, y | y in within && Edge(g, x, y) ensures x in within {
      if x !in roots { StepLeadsTo(h, x, y, roots); }
    }
    PrecedesReaches(g, f, r);
    ReachesCameFrom(g, within, f, r);
  }

  // The closures of the promoted roots before and after the edit coincide.
  lemma ClosuresCoincide(before: Document, after: Document, roots: set<FieldRef>, oldDependents: set<FieldRef>, newDependents: set<FieldRef>)
    requires Covers(before, after, roots)
    requires Closes(DependencyMap(before), Promoted(before, after, roots), oldDependents)
    requires Closes(DependencyMap(after), Promoted(before, after, roots), newDependents)
    ensures oldDependents == newDependents
  {
    var g, h, promoted := DependencyMap(before), DependencyMap(after), Promoted(before, after, roots);
    forall x, y | x !in promoted ensures Edge(g, x, y) <==> Edge(h, x, y) {
      UnpromotedEdges(before, after, roots, x, y);
    }
    forall f ensures f in oldDependents <==> f in newDependents {
      if f in oldDependents { ClosureSurvives(g, h, promoted, f); }
      if f in newDependents { ClosureSurvives(h, g, promoted, f); }
    }
  }

  // Dependents of the dirty set are dirty, in the graphs of both documents.
  lemma DirtyIsClosed(before: Document, after: Document, roots: set<FieldRef>, affected: set<FieldRef>)
    requires Covers(before, after, roots)
    requires Closes(DependencyMap(before), Promoted(before, after, roots), affected)
    requires Closes(DependencyMap(after), Promoted(before, after, roots), affected)
    ensures var promoted := Promoted(before, after, roots);
      && Sound(Edit(before, after, roots, promoted, promoted + affected))
      && forall f, d :: Edge(DependencyMap(before), f, d) && d in promoted + affected ==> f in promoted + affected
  {
    var promoted := Promoted(before, after, roots);
    forall f | f !in promoted ensures ColumnsUnmoved(before, after, f) {
      UnpromotedColumnsUnmoved(before, after, roots, f);
    }
    forall f, d | Edge(DependencyMap(after), f, d) && d in promoted + affected ensures f in promoted + affected {
      StepLeadsTo(DependencyMap(after), f, d, promoted);
    }
    forall f, d | Edge(DependencyMap(before), f, d) && d in promoted + affected ensures f in promoted + affected {
      StepLeadsTo(DependencyMap(before), f, d, promoted);
    }
  }

  // update_dependency_impact: edit the graph and find every dirty field.
  method UpdateDependencyImpact(
    graph: DependencyGraph, document: Document, promoted: set<FieldRef>, ghost roots: set<FieldRef>, ghost before: Document
  ) returns (dirty: set<FieldRef>, dependents: set<FieldRef>)
    requires Exact(graph.View(), before) && Covers(before, document, roots) && promoted == Promoted(before, document, roots)
    modifies graph
    ensures Exact(graph.View(), document)
    ensures Closes(DependencyMap(before), promoted, dependents) && Closes(DependencyMap(document), promoted, dependents)
    ensures dirty == promoted + dependents && Sound(Edit(before, document, roots, promoted, dirty))
  {
    var oldDependents := graph.ReverseClosure(promoted, false, before);
    EditGraph(graph, document, promoted, roots, before);
    var newDependents := graph.ReverseClosure(promoted, false, document);
    dirty := promoted + oldDependents + newDependents;
    dependents := oldDependents + newDependents;
    ClosuresAreSound(before, document, roots, oldDependents, newDependents);
  }

  lemma ClosuresAreSound(before: Document, after: Document, roots: set<FieldRef>, oldDependents: set<FieldRef>, newDependents: set<FieldRef>)
    requires Covers(before, after, roots)
    requires Closes(DependencyMap(before), Promoted(before, after, roots), oldDependents)
    requires Closes(DependencyMap(after), Promoted(before, after, roots), newDependents)
    ensures oldDependents + newDependents == oldDependents == newDependents
    ensures var promoted := Promoted(before, after, roots);
      promoted + oldDependents + newDependents == promoted + (oldDependents + newDependents) && Sound(Edit(before, after, roots, promoted, promoted + oldDependents + newDependents))
  {
    ClosuresCoincide(before, after, roots, oldDependents, newDependents);
    DirtyIsClosed(before, after, roots, newDependents);
    assert oldDependents + newDependents == newDependents;
    assert Promoted(before, after, roots) + oldDependents + newDependents == Promoted(before, after, roots) + newDependents;
  }
}
