/**
 What the caller of a retained update must name, and why nothing outside the
 dirty set is disturbed by the edit.
 */
module Coverage {
  import opened Model
  import opened Expressions
  import opened Evaluator
  import opened Locality
  import opened Pregraph
  import opened Graphs
  import opened DependencyGraphs
  import opened Systems
  import opened Solutions

  // A row added, removed or moved between schemas.
  predicate RowChanged(before: Document, after: Document, e: EntityId) {
    || (e in before.entities) != (e in after.entities)
    || (e in before.entities && before.entities[e].schema != after.entities[e].schema)
  }

  ghost predicate NamesRow(roots: set<FieldRef>, e: EntityId) {
    exists r :: r in roots && r.entity == e
  }

  // A formula that is not a root names the cell.
  ghost predicate OutsideReference(document: Document, roots: set<FieldRef>, f: FieldRef, c: FieldRef) {
    f in Formulas(document) && f !in roots && c in DirectReferences(f, FormulaAt(document, f))
  }

  // The impact classification a caller owes: every changed cell is a root, and
  // so is every stored or referenced cell of a changed row.
  ghost predicate Covers(before: Document, after: Document, roots: set<FieldRef>) {
    && before.schemas == after.schemas
    && (forall c :: Stored(before, c) != Stored(after, c) ==> c in roots)
    && (forall e :: RowChanged(before, after, e) ==> NamesRow(roots, e))
    && (forall c: FieldRef :: RowChanged(before, after, c.entity) && Stored(before, c).Some? ==> c in roots)
    && (forall f, c: FieldRef :: OutsideReference(after, roots, f, c) && RowChanged(before, after, c.entity) ==> c in roots)
  }

  ghost predicate ColumnsUnmoved(before: Document, after: Document, f: FieldRef) {
    IsFormula(before, f) ==>
      forall k :: k in Columns(FormulaAt(before, f)) ==> Rows(before, k.schema) == Rows(after, k.schema)
  }

  // An edit, its roots with the promoted column readers, and a set that holds
  // them and is closed under dependents.
  datatype Edit = Edit(before: Document, after: Document, roots: set<FieldRef>, promoted: set<FieldRef>, dirty: set<FieldRef>)

  ghost predicate Sound(edit: Edit) {
    && Covers(edit.before, edit.after, edit.roots)
    && edit.roots <= edit.promoted <= edit.dirty
    && (forall f :: f !in edit.promoted ==> ColumnsUnmoved(edit.before, edit.after, f))
    && (forall f, d :: Edge(DependencyMap(edit.after), f, d) && d in edit.dirty ==> f in edit.dirty)
  }

  ghost predicate AgreeOffDirty(edit: Edit, s: Snapshot, t: Snapshot) {
    && s.document == edit.before && t.document == edit.after
    && forall c :: c !in edit.dirty ==> AgreesAt(s, t, c)
  }

  // ---- Outside the dirty set both documents look the same ----

  lemma SameStored(edit: Edit, c: FieldRef)
    requires Sound(edit) && c !in edit.dirty
    ensures Stored(edit.before, c) == Stored(edit.after, c)
    ensures IsFormula(edit.before, c) <==> IsFormula(edit.after, c)
    ensures c in Nodes(edit.before) <==> c in Nodes(edit.after)
    ensures c in Formulas(edit.before) <==> c in Formulas(edit.after)
  {
    InCells(edit.before, c);
    InCells(edit.after, c);
  }

  lemma InCells(document: Document, c: FieldRef)
    ensures c in Cells(document) <==> Stored(document, c).Some?
  {
  }

  lemma SameNodeCell(edit: Edit, s: Snapshot, t: Snapshot, c: FieldRef)
    requires Sound(edit) && AgreeOffDirty(edit, s, t) && c !in edit.dirty && Stored(edit.before, c).Some?
    ensures SameCell(s, t, c)
  {
    SameStored(edit, c);
    assert !RowChanged(edit.before, edit.after, c.entity);
  }

  // A formula outside the dirty set reads nothing dirty, and the same cells in
  // both documents.
  lemma SameDependencies(edit: Edit, f: FieldRef)
    requires Sound(edit) && f !in edit.dirty && f in Formulas(edit.after)
    ensures f in Formulas(edit.before) && FormulaAt(edit.before, f) == FormulaAt(edit.after, f)
    ensures Dependencies(edit.before, f, FormulaAt(edit.after, f)) == Dependencies(edit.after, f, FormulaAt(edit.after, f))
    ensures Dependencies(edit.after, f, FormulaAt(edit.after, f)) !! edit.dirty
  {
    SameStored(edit, f);
    var e := FormulaAt(edit.after, f);
    assert ColumnsUnmoved(edit.before, edit.after, f);
    forall k | k in Columns(e) ensures Slots(edit.before, k) == Slots(edit.after, k) {
      assert Rows(edit.before, k.schema) == Rows(edit.after, k.schema);
    }
    forall d | d in Dependencies(edit.after, f, e) ensures d !in edit.dirty {
      assert Edge(DependencyMap(edit.after), f, d);
    }
  }

  lemma SameReference(edit: Edit, s: Snapshot, t: Snapshot, f: FieldRef, c: FieldRef)
    requires Sound(edit) && AgreeOffDirty(edit, s, t) && f !in edit.dirty && f in Formulas(edit.after)
    requires c in DirectReferences(f, FormulaAt(edit.after, f))
    ensures SameCell(s, t, c)
  {
    SameDependencies(edit, f);
    assert c in Dependencies(edit.after, f, FormulaAt(edit.after, f));
    SameStored(edit, c);
    assert OutsideReference(edit.after, edit.roots, f, c);
  }

  lemma SameUnmovedColumn(edit: Edit, s: Snapshot, t: Snapshot, f: FieldRef, k: ColumnRef)
    requires Sound(edit) && AgreeOffDirty(edit, s, t) && f !in edit.dirty && f in Formulas(edit.after)
    requires k in Columns(FormulaAt(edit.after, f))
    ensures SameColumn(s, t, k)
  {
    SameDependencies(edit, f);
    assert ColumnsUnmoved(edit.before, edit.after, f);
    forall row | row in Rows(edit.before, k.schema) ensures SameCell(s, t, FieldRef(row, k.field)) {
      assert row in Rows(edit.after, k.schema);
      assert FieldRef(row, k.field) in Slots(edit.after, k);
      assert FieldRef(row, k.field) in Dependencies(edit.after, f, FormulaAt(edit.after, f));
      SameStored(edit, FieldRef(row, k.field));
    }
  }

  lemma UndisturbedReads(edit: Edit, s: Snapshot, t: Snapshot, f: FieldRef)
    requires Sound(edit) && AgreeOffDirty(edit, s, t) && f !in edit.dirty && f in Formulas(edit.after)
    ensures SameReads(s, t, f, FormulaAt(edit.after, f))
  {
    forall c | c in DirectReferences(f, FormulaAt(edit.after, f)) ensures SameCell(s, t, c) {
      SameReference(edit, s, t, f, c);
    }
    forall k | k in Columns(FormulaAt(edit.after, f)) ensures SameColumn(s, t, k) {
      SameUnmovedColumn(edit, s, t, f, k);
    }
  }

  ghost function Blank(document: Document): Snapshot {
    Snapshot(document, map[], map[])
  }

  lemma UndisturbedPregraph(edit: Edit, c: FieldRef)
    requires Sound(edit) && c !in edit.dirty && c in Nodes(edit.after)
    ensures PregraphFailure(edit.before, c) == PregraphFailure(edit.after, c)
  {
    var s, t := Blank(edit.before), Blank(edit.after);
    SameStored(edit, c);
    SameNodeCell(edit, s, t, c);
    if IsFormula(edit.after, c) {
      UndisturbedReads(edit, s, t, c);
    }
    SamePregraph(s, t, c);
  }

  lemma UndisturbedEligible(edit: Edit, c: FieldRef)
    requires Sound(edit) && c !in edit.dirty
    ensures c in Eligible(edit.before) <==> c in Eligible(edit.after)
  {
    SameStored(edit, c);
    if c in Formulas(edit.after) { UndisturbedPregraph(edit, c); }
  }

  // What a clean formula reads never leads into the dirty set, in either graph.
  lemma UndisturbedEdge(edit: Edit, x: FieldRef, y: FieldRef)
    requires Sound(edit) && x !in edit.dirty
    ensures Edge(CycleGraph(edit.before), x, y) <==> Edge(CycleGraph(edit.after), x, y)
    ensures Edge(CycleGraph(edit.before), x, y) ==> y !in edit.dirty
  {
    UndisturbedEligible(edit, x);
    if x in Eligible(edit.after) {
      SameDependencies(edit, x);
      if y !in edit.dirty { UndisturbedEligible(edit, y); }
    }
  }

  ghost function Clean(edit: Edit): iset<FieldRef> {
    iset c: FieldRef | c !in edit.dirty
  }

  lemma UndisturbedGraph(edit: Edit)
    requires Sound(edit)
    ensures SameFrom(CycleGraph(edit.before), CycleGraph(edit.after), Clean(edit))
    ensures forall c :: c in Clean(edit) ==> (c in CycleGraph(edit.before) <==> c in CycleGraph(edit.after))
  {
    forall x, y | x in Clean(edit)
      ensures (Edge(CycleGraph(edit.before), x, y) <==> Edge(CycleGraph(edit.after), x, y))
           && (Edge(CycleGraph(edit.before), x, y) ==> y in Clean(edit))
    {
      UndisturbedEdge(edit, x, y);
    }
    forall c | c in Clean(edit) ensures c in CycleGraph(edit.before) <==> c in CycleGraph(edit.after) {
      UndisturbedEligible(edit, c);
    }
  }

  lemma UndisturbedClass(edit: Edit, c: FieldRef)
    requires Sound(edit) && c !in edit.dirty
    ensures IsCyclic(edit.before, c) <==> IsCyclic(edit.after, c)
    ensures Class(CycleGraph(edit.before), c) == Class(CycleGraph(edit.after), c)
  {
    UndisturbedGraph(edit);
    SamePartClass(CycleGraph(edit.before), CycleGraph(edit.after), Clean(edit), c);
  }

  lemma UndisturbedFixed(edit: Edit, c: FieldRef)
    requires Sound(edit) && c !in edit.dirty && c in Nodes(edit.after)
    ensures c in Nodes(edit.before) && FixedOutcome(edit.before, c) == FixedOutcome(edit.after, c)
  {
    SameStored(edit, c);
    UndisturbedPregraph(edit, c);
    UndisturbedClass(edit, c);
  }

  // A clean node keeps its outcome: the retained record is still right.
  lemma UndisturbedOutcome(rules: Rules, edit: Edit, s: Snapshot, t: Snapshot, c: FieldRef)
    requires Sound(edit) && Coherent(edit.after) && AgreeOffDirty(edit, s, t) && c !in edit.dirty && c in Nodes(edit.after)
    ensures c in Nodes(edit.before) && NodeOutcome(rules, s, c) == NodeOutcome(rules, t, c)
  {
    UndisturbedFixed(edit, c);
    if FixedOutcome(edit.after, c) == None {
      SameDependencies(edit, c);
      UndisturbedReads(edit, s, t, c);
      SameOutcome(rules, s, t, c, FormulaAt(edit.after, c));
    }
  }

  // ---- Cycles found within the dirty set are the document's cycles ----

  ghost function DirtyEligible(edit: Edit): set<FieldRef> {
    Eligible(edit.after) * edit.dirty
  }

  ghost predicate DirtyCutsEdge(edit: Edit, x: FieldRef, y: FieldRef) {
    var g, h := CycleGraph(edit.after), FormulaGraph(edit.after, DirtyEligible(edit));
    && (Edge(h, x, y) ==> Edge(g, x, y) && y in DirtyEligible(edit))
    && (y in DirtyEligible(edit) && Edge(g, x, y) ==> x in DirtyEligible(edit) && Edge(h, x, y))
  }

  lemma DirtyEdge(edit: Edit, x: FieldRef, y: FieldRef)
    requires Sound(edit)
    ensures DirtyCutsEdge(edit, x, y)
  {
    assert Edge(CycleGraph(edit.after), x, y) ==> Edge(DependencyMap(edit.after), x, y);
  }

  lemma DirtyCut(edit: Edit)
    requires Sound(edit)
    ensures CutsTo(CycleGraph(edit.after), FormulaGraph(edit.after, DirtyEligible(edit)), iset c | c in DirtyEligible(edit))
  {
    var g, h, d := CycleGraph(edit.after), FormulaGraph(edit.after, DirtyEligible(edit)), DirtyEligible(edit);
    forall x, y ensures DirtyCutsEdge(edit, x, y) {
      DirtyEdge(edit, x, y);
    }
    CutsByEdge(edit, g, h, iset c | c in d);
  }

  lemma CutsByEdge(edit: Edit, g: Graph<FieldRef>, h: Graph<FieldRef>, part: iset<FieldRef>)
    requires g == CycleGraph(edit.after) && h == FormulaGraph(edit.after, DirtyEligible(edit))
    requires part == iset c | c in DirtyEligible(edit)
    requires forall x, y {:trigger DirtyCutsEdge(edit, x, y)} :: DirtyCutsEdge(edit, x, y)
    ensures CutsTo(g, h, part)
  {
    forall x, y | Edge(h, x, y) ensures Edge(g, x, y) && y in part {
      assert DirtyCutsEdge(edit, x, y);
    }
    forall x, y | y in part && Edge(g, x, y) ensures x in part && Edge(h, x, y) {
      assert DirtyCutsEdge(edit, x, y);
    }
  }

  lemma DirtyCycles(edit: Edit, c: FieldRef)
    requires Sound(edit) && c in DirtyEligible(edit)
    ensures var h := FormulaGraph(edit.after, DirtyEligible(edit));
      && (OnCycle(h, c) <==> IsCyclic(edit.after, c))
      && Class(h, c) == Class(CycleGraph(edit.after), c)
  {
    var g, h, part := CycleGraph(edit.after), FormulaGraph(edit.after, DirtyEligible(edit)), iset c | c in DirtyEligible(edit);
    DirtyCut(edit);
    CutCycle(g, h, part, c);
    forall b ensures b in Class(g, c) <==> b in Class(h, c) {
      CutMutual(g, h, part, c, b);
    }
  }
}
