/** The formulas whose value an edit changed, each with the changed fields behind it. */
module Impacts {
  import opened Model
  import opened FieldOrder
  import opened Expressions
  import opened Evaluator
  import opened Locality
  import opened Stability
  import opened Graphs
  import opened DependencyGraphs
  import opened Systems
  import opened Solutions
  import opened Scheduling
  import opened Coverage

  // ---- Two solutions agree wherever the edit did not reach ----

  // A snapshot cut down to some cells.
  ghost function Only(s: Snapshot, cells: set<FieldRef>): Snapshot {
    Snapshot(s.document, map c | c in s.values && c in cells :: s.values[c], map c | c in s.failures && c in cells :: s.failures[c])
  }

  lemma OnlyKeepsOutcome(rules: Rules, s: Snapshot, f: FieldRef, e: Expression, cells: set<FieldRef>)
    requires Declares(e) && Dependencies(s.document, f, e) <= cells
    ensures FormulaOutcome(rules, s, f, e) == FormulaOutcome(rules, Only(s, cells), f, e)
  {
    var t := Only(s, cells);
    assert AgreeOn(s, t, Dependencies(s.document, f, e));
    AgreementOnDependencies(s, t, f, e);
    SameOutcome(rules, s, t, f, e);
  }

  ghost function CleanDiffering(edit: Edit, s: Snapshot, t: Snapshot): set<FieldRef> {
    set c | c in Nodes(edit.after) && c !in edit.dirty && !AgreesAt(s, t, c)
  }

  lemma SameRecord(s: Snapshot, t: Snapshot, c: FieldRef, outcome: Result<Number>)
    requires Records(s, c, outcome) && Records(t, c, outcome)
    ensures AgreesAt(s, t, c)
  {
  }

  lemma FixedAgrees(rules: Rules, edit: Edit, s: Snapshot, t: Snapshot, c: FieldRef)
    requires Sound(edit) && s.document == edit.before && t.document == edit.after && Solves(rules, s) && Solves(rules, t)
    requires c in Nodes(edit.after) && c !in edit.dirty && FixedOutcome(edit.after, c).Some?
    ensures AgreesAt(s, t, c)
  {
    UndisturbedFixed(edit, c);
    var outcome := FixedOutcome(edit.after, c).value;
    assert RecordsOutcome(rules, s, c) && RecordsOutcome(rules, t, c);
    assert NodeOutcome(rules, s, c) == outcome && NodeOutcome(rules, t, c) == outcome;
    SameRecord(s, t, c, outcome);
  }

  lemma UnfixedIsFree(document: Document, c: FieldRef)
    requires c in Nodes(document) && FixedOutcome(document, c) == None
    ensures c in SystemOf(document).free
  {
  }

  // A clean node that differs has a fixed outcome on neither side.
  lemma DifferingIsFree(rules: Rules, edit: Edit, s: Snapshot, t: Snapshot, c: FieldRef)
    requires Sound(edit) && s.document == edit.before && t.document == edit.after && Solves(rules, s) && Solves(rules, t)
    requires c in CleanDiffering(edit, s, t)
    ensures c in SystemOf(edit.after).free
  {
    if FixedOutcome(edit.after, c).Some? {
      FixedAgrees(rules, edit, s, t, c);
      assert false;
    }
    UnfixedIsFree(edit.after, c);
  }

  // Agreement on its reads is agreement on a clean formula.
  lemma CleanFormulaAgrees(rules: Rules, edit: Edit, s: Snapshot, t: Snapshot, f: FieldRef)
    requires Sound(edit) && Coherent(edit.after) && s.document == edit.before && t.document == edit.after
    requires f in Formulas(edit.after) && f !in edit.dirty
    requires Dependencies(edit.after, f, FormulaAt(edit.after, f)) !! CleanDiffering(edit, s, t)
    requires NothingOffNodes(s) && NothingOffNodes(t)
    ensures FormulaAt(edit.before, f) == FormulaAt(edit.after, f)
    ensures FormulaOutcome(rules, s, f, FormulaAt(edit.after, f)) == FormulaOutcome(rules, t, f, FormulaAt(edit.after, f))
  {
    var e := FormulaAt(edit.after, f);
    var cells := Dependencies(edit.after, f, e);
    var p, q := Only(s, cells), Only(t, cells);
    SameDependencies(edit, f);
    OnlyKeepsOutcome(rules, s, f, e, cells);
    OnlyKeepsOutcome(rules, t, f, e, cells);
    forall c | c !in edit.dirty ensures AgreesAt(p, q, c) {
      if c in cells {
        SameStored(edit, c);
        assert c !in CleanDiffering(edit, s, t);
        assert AgreesAt(s, t, c);
      }
    }
    UndisturbedReads(edit, p, q, f);
    SameOutcome(rules, p, q, f, e);
  }

  ghost predicate NothingOffNodes(s: Snapshot) {
    s.values.Keys <= Nodes(s.document) && s.failures.Keys <= Nodes(s.document)
  }

  // Two solutions, one of each document, agree off the dirty set.
  lemma CleanSolutionsAgree(rules: Rules, edit: Edit, s: Snapshot, t: Snapshot)
    requires Sound(edit) && Coherent(edit.after) && s.document == edit.before && t.document == edit.after
    requires Solves(rules, s) && Solves(rules, t)
    ensures AgreeOffDirty(edit, s, t)
  {
    var y, oracle := SystemOf(edit.after), OracleOf(rules);
    var differing := CleanDiffering(edit, s, t);
    DocumentIsWellPosed(rules, edit.after);
    forall c | c in differing ensures c in y.free { DifferingIsFree(rules, edit, s, t, c); }
    if differing != {} {
      SomethingIsReady(y, oracle, differing);
      var f :| f in differing && y.free[f] !! differing;
      ReadyCleanAgrees(rules, edit, s, t, f);
      assert false;
    }
    forall c | c !in edit.dirty ensures AgreesAt(s, t, c) {
      SameStored(edit, c);
      if c in Nodes(edit.after) { assert c !in differing; }
    }
  }

  lemma ReadyCleanAgrees(rules: Rules, edit: Edit, s: Snapshot, t: Snapshot, f: FieldRef)
    requires Sound(edit) && Coherent(edit.after) && s.document == edit.before && t.document == edit.after
    requires Solves(rules, s) && Solves(rules, t) && f in Nodes(edit.after) && f !in edit.dirty
    requires f in SystemOf(edit.after).free && SystemOf(edit.after).free[f] !! CleanDiffering(edit, s, t)
    ensures AgreesAt(s, t, f)
  {
    FreeIsFormula(edit.after, f);
    UndisturbedFixed(edit, f);
    CleanFormulaAgrees(rules, edit, s, t, f);
    assert RecordsOutcome(rules, s, f) && RecordsOutcome(rules, t, f);
  }

  // ---- What an edit can reach: changed cells, and rows that came or went ----

  function StoredChanges(before: Document, after: Document): set<FieldRef> {
    set c | c in Cells(before) + Cells(after)
      && c.entity in before.entities && c.entity in after.entities && Stored(before, c) != Stored(after, c)
  }

  // The stored and the named cells of the rows that were added, removed or
  // moved between schemas, with one cell for each of those rows.
  ghost function CellsOfChangedRows(before: Document, after: Document): set<FieldRef> {
    (set c | c in Cells(before) + Cells(after) && RowChanged(before, after, c.entity))
    + (set f, c | f in Formulas(after) && c in DirectReferences(f, FormulaAt(after, f)) && RowChanged(before, after, c.entity) :: c)
    + set e | e in before.entities.Keys + after.entities.Keys && RowChanged(before, after, e) :: FieldRef(e, 0)
  }

  // The formula reads a column that gained or lost a row.
  ghost predicate ReadsChangedColumn(document: Document, other: Document, f: FieldRef) {
    IsFormula(document, f)
    && exists k :: k in Columns(FormulaAt(document, f)) && Rows(document, k.schema) != Rows(other, k.schema)
  }

  // Where a row on one side only, or moved between schemas, first shows.
  ghost function RowSources(before: Document, after: Document): set<FieldRef> {
    CellsOfChangedRows(before, after)
    + set f | f in Formulas(before) + Formulas(after)
        && (ReadsChangedColumn(before, after, f) || ReadsChangedColumn(after, before, f))
  }

  ghost function Reached(document: Document, sources: set<FieldRef>): set<FieldRef> {
    set f | f in Formulas(document) && LeadsTo(DependencyMap(document), f, sources)
  }

  // The edit that starts from every changed cell and every changed row.
  ghost function WholeEdit(before: Document, after: Document): Edit {
    var changed := StoredChanges(before, after);
    var sources := changed + RowSources(before, after);
    Edit(before, after, changed + CellsOfChangedRows(before, after), sources, sources + Reached(after, sources))
  }

  lemma ChangesAreCovered(before: Document, after: Document)
    requires before.schemas == after.schemas
    ensures Covers(before, after, StoredChanges(before, after) + CellsOfChangedRows(before, after))
  {
    var roots := StoredChanges(before, after) + CellsOfChangedRows(before, after);
    forall c | Stored(before, c) != Stored(after, c) ensures c in roots {
      InCells(before, c);
      InCells(after, c);
    }
    forall e | RowChanged(before, after, e) ensures NamesRow(roots, e) {
      assert FieldRef(e, 0) in roots;
    }
    forall c: FieldRef | RowChanged(before, after, c.entity) && Stored(before, c).Some? ensures c in roots {
      InCells(before, c);
    }
    forall f, c: FieldRef | OutsideReference(after, roots, f, c) && RowChanged(before, after, c.entity) ensures c in roots {
      assert c in CellsOfChangedRows(before, after);
    }
  }

  lemma WholeEditIsSound(before: Document, after: Document)
    requires before.schemas == after.schemas
    ensures Sound(WholeEdit(before, after))
  {
    var edit := WholeEdit(before, after);
    ChangesAreCovered(before, after);
    forall f | f !in edit.promoted ensures ColumnsUnmoved(before, after, f) {
      InCells(before, f);
      assert !ReadsChangedColumn(before, after, f);
    }
    forall f, d | Edge(DependencyMap(after), f, d) && d in edit.dirty ensures f in edit.dirty {
      StepLeadsTo(DependencyMap(after), f, d, edit.promoted);
    }
  }

  // ---- Edits that change field definitions as well ----

  // The old rows under the new definitions: the same cells, formulas and edges.
  function Redefined(before: Document, after: Document): Document {
    Document(after.schemas, before.entities)
  }

  lemma RedefinedCells(before: Document, after: Document)
    ensures var b := Redefined(before, after);
      && Cells(b) == Cells(before) && Formulas(b) == Formulas(before)
      && (forall c :: Stored(b, c) == Stored(before, c)) && (forall k :: Rows(b, k) == Rows(before, k))
  {
    var b := Redefined(before, after);
    assert Cells(b) == Cells(before);
    assert Formulas(b) == Formulas(before);
    assert forall k :: Rows(b, k) == Rows(before, k);
  }

  lemma RedefinedReads(before: Document, after: Document, f: FieldRef)
    ensures var b := Redefined(before, after);
      && (ReadsChangedColumn(b, after, f) <==> ReadsChangedColumn(before, after, f))
      && (ReadsChangedColumn(after, b, f) <==> ReadsChangedColumn(after, before, f))
  {
    RedefinedCells(before, after);
    assert IsFormula(before, f) ==> FormulaAt(Redefined(before, after), f) == FormulaAt(before, f);
  }

  lemma RedefinedRows(before: Document, after: Document)
    ensures CellsOfChangedRows(Redefined(before, after), after) == CellsOfChangedRows(before, after)
  {
    var b := Redefined(before, after);
    RedefinedCells(before, after);
    forall e ensures RowChanged(b, after, e) <==> RowChanged(before, after, e) {}
    forall c ensures c in CellsOfChangedRows(b, after) <==> c in CellsOfChangedRows(before, after) {}
  }

  lemma RedefinedChanges(before: Document, after: Document)
    ensures StoredChanges(Redefined(before, after), after) == StoredChanges(before, after)
  {
    RedefinedCells(before, after);
  }

  lemma RedefinedSources(before: Document, after: Document)
    ensures StoredChanges(Redefined(before, after), after) == StoredChanges(before, after)
    ensures RowSources(Redefined(before, after), after) == RowSources(before, after)
  {
    RedefinedChanges(before, after);
    RedefinedRows(before, after);
    RedefinedCells(before, after);
    forall f
      ensures ReadsChangedColumn(Redefined(before, after), after, f) <==> ReadsChangedColumn(before, after, f)
      ensures ReadsChangedColumn(after, Redefined(before, after), f) <==> ReadsChangedColumn(after, before, f)
    {
      RedefinedReads(before, after, f);
    }
  }

  // A value of a formula is the number it evaluates to.
  lemma ValueIsNumber(rules: Rules, s: Snapshot, f: FieldRef)
    requires Solves(rules, s) && f in s.values && IsFormula(s.document, f)
    ensures NumberOf(rules, s, f, FormulaAt(s.document, f)) == Ok(s.values[f])
  {
    assert RecordsOutcome(rules, s, f);
  }

  lemma StoredNumberIsValue(rules: Rules, s: Snapshot, c: FieldRef)
    requires Solves(rules, s) && c in s.values && !IsFormula(s.document, c)
    ensures Stored(s.document, c) == Some(NumberValue(s.values[c]))
  {
    assert RecordsOutcome(rules, s, c);
  }

  lemma ValuedFormulaIsFree(rules: Rules, s: Snapshot, f: FieldRef)
    requires Solves(rules, s) && f in s.values && IsFormula(s.document, f)
    ensures f in SystemOf(s.document).free
  {
    assert RecordsOutcome(rules, s, f);
    assert FixedOutcome(s.document, f) == None;
    UnfixedIsFree(s.document, f);
  }

  // The clean cells with two different values.
  ghost function Conflicts(edit: Edit, s: Snapshot, t: Snapshot): set<FieldRef> {
    set c | c in t.values && c !in edit.dirty && c in s.values && s.values[c] != t.values[c]
  }

  // Two solutions of documents with the same clean rows, whatever their
  // definitions.
  ghost predicate Compared(rules: Rules, edit: Edit, s: Snapshot, t: Snapshot) {
    && Sound(edit) && Coherent(edit.after) && t.document == edit.after && s.document.entities == edit.before.entities
    && Solves(rules, s) && Solves(rules, t)
  }

  lemma ConflictIsFree(rules: Rules, edit: Edit, s: Snapshot, t: Snapshot, c: FieldRef)
    requires Compared(rules, edit, s, t) && c in Conflicts(edit, s, t)
    ensures c in SystemOf(edit.after).free
  {
    SameStored(edit, c);
    assert Stored(s.document, c) == Stored(edit.before, c);
    if IsFormula(t.document, c) {
      ValuedFormulaIsFree(rules, t, c);
    } else {
      StoredNumberIsValue(rules, s, c);
      StoredNumberIsValue(rules, t, c);
      assert false;
    }
  }

  lemma AlikeFromStored(edit: Edit, s: Snapshot, t: Snapshot, c: FieldRef, rules: Rules)
    requires Compared(rules, edit, s, t) && SameCell(Blank(edit.before), Blank(edit.after), c)
    requires c !in edit.dirty && c !in Conflicts(edit, s, t)
    ensures AlikeCell(s, t, c)
  {
    assert Stored(s.document, c) == Stored(edit.before, c);
    InCells(s.document, c);
    InCells(t.document, c);
  }

  lemma ReadyReadsAlike(rules: Rules, edit: Edit, s: Snapshot, t: Snapshot, f: FieldRef)
    requires Compared(rules, edit, s, t) && f in Formulas(edit.after) && f !in edit.dirty
    requires Dependencies(edit.after, f, FormulaAt(edit.after, f)) !! Conflicts(edit, s, t)
    ensures AlikeReads(s, t, f, FormulaAt(edit.after, f))
  {
    var e, p, q := FormulaAt(edit.after, f), Blank(edit.before), Blank(edit.after);
    SameDependencies(edit, f);
    UndisturbedReads(edit, p, q, f);
    forall c | c in DirectReferences(f, e) ensures AlikeCell(s, t, c) {
      assert c in Dependencies(edit.after, f, e);
      AlikeFromStored(edit, s, t, c, rules);
    }
    forall k | k in Columns(e) ensures AlikeColumn(s, t, k) {
      assert SameColumn(p, q, k);
      assert Rows(s.document, k.schema) == Rows(edit.before, k.schema);
      forall row | row in Rows(s.document, k.schema) ensures AlikeCell(s, t, FieldRef(row, k.field)) {
        assert FieldRef(row, k.field) in Slots(edit.after, k);
        assert FieldRef(row, k.field) in Dependencies(edit.after, f, e);
        AlikeFromStored(edit, s, t, FieldRef(row, k.field), rules);
      }
    }
  }

  lemma ReadyHasNoConflict(rules: Rules, edit: Edit, s: Snapshot, t: Snapshot, f: FieldRef)
    requires Compared(rules, edit, s, t) && f in SystemOf(edit.after).free
    requires SystemOf(edit.after).free[f] !! Conflicts(edit, s, t)
    ensures f !in Conflicts(edit, s, t)
  {
    if f in Conflicts(edit, s, t) {
      FreeIsFormula(edit.after, f);
      SameDependencies(edit, f);
      ReadyReadsAlike(rules, edit, s, t, f);
      assert Stored(s.document, f) == Stored(edit.before, f);
      ValueIsNumber(rules, s, f);
      ValueIsNumber(rules, t, f);
      NumbersAgree(rules, s, t, f, FormulaAt(edit.after, f));
      assert false;
    }
  }

  // No clean cell has two values.
  lemma NoConflicts(rules: Rules, edit: Edit, s: Snapshot, t: Snapshot)
    requires Compared(rules, edit, s, t)
    ensures Conflicts(edit, s, t) == {}
  {
    var y, oracle, conflicts := SystemOf(edit.after), OracleOf(rules), Conflicts(edit, s, t);
    DocumentIsWellPosed(rules, edit.after);
    forall c | c in conflicts ensures c in y.free { ConflictIsFree(rules, edit, s, t, c); }
    if conflicts != {} {
      SomethingIsReady(y, oracle, conflicts);
      var f :| f in conflicts && y.free[f] !! conflicts;
      ReadyHasNoConflict(rules, edit, s, t, f);
      assert false;
    }
  }

  // A formula that neither changed nor reads, directly or not, a changed cell
  // or a changed row keeps its value wherever both documents give it one; when
  // the definitions stay it keeps its whole record.
  lemma UnreachedKeepsValue(rules: Rules, s: Snapshot, t: Snapshot, f: FieldRef)
    requires Coherent(t.document) && Solves(rules, s) && Solves(rules, t)
    requires var sources := StoredChanges(s.document, t.document) + RowSources(s.document, t.document);
      f !in sources && !LeadsTo(DependencyMap(t.document), f, sources)
    ensures f in s.values && f in t.values ==> s.values[f] == t.values[f]
    ensures s.document.schemas == t.document.schemas ==> AgreesAt(s, t, f)
  {
    var before, after := Redefined(s.document, t.document), t.document;
    var edit := WholeEdit(before, after);
    RedefinedSources(s.document, after);
    WholeEditIsSound(before, after);
    NoConflicts(rules, edit, s, t);
    assert f !in edit.dirty && f !in Conflicts(edit, s, t);
    if s.document.schemas == t.document.schemas {
      assert before == s.document;
      CleanSolutionsAgree(rules, edit, s, t);
    }
  }

  // ---- Changed fields ----

  // compare_entity, for one row on both sides.
  method ChangedInEntity(before: Document, after: Document, e: EntityId) returns (changed: set<FieldRef>)
    requires e in before.entities && e in after.entities
    ensures changed == set c | c in StoredChanges(before, after) && c.entity == e
  {
    var olds, news := before.entities[e].fields, after.entities[e].fields;
    var fields := olds.Keys + news.Keys;
    changed := {};
    var work := fields;
    while work != {}
      invariant work <= fields
      invariant forall c :: c in changed <==> c.entity == e && c.field in fields - work && Stored(before, c) != Stored(after, c)
    {
      var field :| field in work;
      if field !in olds || field !in news || olds[field] != news[field] {
        changed := changed + {FieldRef(e, field)};
      }
      work := work - {field};
    }
    forall c ensures c in changed <==> c in StoredChanges(before, after) && c.entity == e {
      InCells(before, c);
      InCells(after, c);
    }
  }

  // Only rows on both sides contribute: an added or removed row has no changed
  // fields of its own.
  method ChangedFields(before: Document, after: Document) returns (changed: set<FieldRef>)
    ensures changed == StoredChanges(before, after)
  {
    changed := {};
    var rows := before.entities.Keys + after.entities.Keys;
    var work := rows;
    while work != {}
      invariant work <= rows
      invariant changed == set c | c in StoredChanges(before, after) && c.entity in rows - work
    {
      var entity :| entity in work;
      if entity in before.entities && entity in after.entities {
        var found := ChangedInEntity(before, after, entity);
        changed := changed + found;
      }
      work := work - {entity};
    }
  }

  // ---- Causes ----

  type Reaching = map<FieldRef, set<FieldRef>>

  ghost predicate ReachesTarget(g: Graph<FieldRef>, changed: set<FieldRef>, targets: set<FieldRef>, f: FieldRef, c: FieldRef) {
    f in targets && c in changed && Precedes(g, f, c)
  }

  ghost predicate Recorded(reaching: Reaching, f: FieldRef, c: FieldRef) {
    f in reaching && c in reaching[f]
  }

  ghost predicate IsReaching(g: Graph<FieldRef>, changed: set<FieldRef>, targets: set<FieldRef>, reaching: Reaching) {
    forall f, c :: Recorded(reaching, f, c) <==> ReachesTarget(g, changed, targets, f, c)
  }

  // One changed field's closure, recorded at the targets in it.
  method RecordReached(reaching: Reaching, affected: set<FieldRef>, targets: set<FieldRef>, field: FieldRef) returns (reaching': Reaching)
    ensures forall f, c :: Recorded(reaching', f, c) <==> Recorded(reaching, f, c) || (c == field && f in affected * targets)
  {
    reaching' := reaching;
    var work := affected;
    while work != {}
      invariant work <= affected
      invariant forall f, c ::
        Recorded(reaching', f, c) <==> Recorded(reaching, f, c) || (c == field && f in (affected - work) * targets)
    {
      var formula :| formula in work;
      ghost var was := reaching';
      if formula in targets {
        var known := if formula in reaching' then reaching'[formula] else {};
        reaching' := reaching'[formula := known + {field}];
      }
      assert forall f, c :: Recorded(reaching', f, c) <==> Recorded(was, f, c) || (c == field && f == formula && f in targets);
      work := work - {formula};
    }
  }

  // reaching_fields: for each target, the changed fields that reach it.
  method ReachingFields(graph: DependencyGraph, changed: set<FieldRef>, targets: set<FieldRef>, ghost document: Document)
      returns (reaching: Reaching)
    requires Exact(graph.View(), document)
    ensures IsReaching(DependencyMap(document), changed, targets, reaching)
  {
    ghost var g := DependencyMap(document);
    reaching := map[];
    var work := changed;
    while work != {}
      invariant work <= changed
      invariant IsReaching(g, changed - work, targets, reaching)
    {
      var field :| field in work;
      var affected := graph.ReverseClosure({field}, true, document);
      ghost var was := reaching;
      reaching := RecordReached(reaching, affected, targets, field);
      RecordedReaching(g, changed - work, targets, was, reaching, affected, field);
      assert changed - (work - {field}) == changed - work + {field};
      work := work - {field};
    }
    assert changed - {} == changed;
  }

  lemma RecordedReaching(
    g: Graph<FieldRef>, done: set<FieldRef>, targets: set<FieldRef>, was: Reaching, now: Reaching, affected: set<FieldRef>, field: FieldRef
  )
    requires IsReaching(g, done, targets, was)
    requires forall f :: f in affected <==> exists r :: r in {field} && Precedes(g, f, r)
    requires forall f, c :: Recorded(now, f, c) <==> Recorded(was, f, c) || (c == field && f in affected * targets)
    ensures IsReaching(g, done + {field}, targets, now)
  {
    forall f ensures f in affected <==> Precedes(g, f, field) {
      if Precedes(g, f, field) { assert field in {field}; }
    }
    forall f, c ensures Recorded(now, f, c) <==> ReachesTarget(g, done + {field}, targets, f, c) {
      assert Recorded(was, f, c) <==> ReachesTarget(g, done, targets, f, c);
    }
  }

  datatype Impact = Impact(field: FieldRef, before: Number, after: Number, causes: set<FieldRef>)

  // A formula with a value on both sides that is not the same.
  predicate IsImpacted(before: Document, after: Document, olds: ValueMap, news: ValueMap, f: FieldRef) {
    (f in Formulas(before) || f in Formulas(after)) && f in olds && f in news && olds[f] != news[f]
  }

  // The changed fields that are the formula or reach it on either side.
  ghost predicate IsCause(before: Document, after: Document, changed: set<FieldRef>, f: FieldRef, c: FieldRef) {
    c in changed && (c == f || Precedes(DependencyMap(before), f, c) || Precedes(DependencyMap(after), f, c))
  }

  ghost predicate IsImpactOf(
    before: Document, after: Document, olds: ValueMap, news: ValueMap, changed: set<FieldRef>, i: Impact
  ) {
    && IsImpacted(before, after, olds, news, i.field) && i.before == olds[i.field] && i.after == news[i.field]
    && forall c :: c in i.causes <==> IsCause(before, after, changed, i.field, c)
  }

  // Every impact, once, in field order, with exactly its causes.
  ghost predicate AreImpacts(
    before: Document, after: Document, olds: ValueMap, news: ValueMap, changed: set<FieldRef>, impacts: seq<Impact>
  ) {
    && (forall i :: 0 <= i < |impacts| ==> IsImpactOf(before, after, olds, news, changed, impacts[i]))
    && (forall i, j :: 0 <= i < j < |impacts| ==> AtMost(impacts[i].field, impacts[j].field) && impacts[i].field != impacts[j].field)
    && forall f :: IsImpacted(before, after, olds, news, f) ==> Names(impacts, f)
  }

  method CausesOf(f: FieldRef, changed: set<FieldRef>, beforeReaching: Reaching, afterReaching: Reaching) returns (causes: set<FieldRef>)
    ensures forall c :: c in causes <==>
      (c == f && f in changed) || Recorded(beforeReaching, f, c) || Recorded(afterReaching, f, c)
  {
    causes := {};
    if f in changed {
      causes := causes + {f};
    }
    if f in beforeReaching {
      causes := causes + beforeReaching[f];
    }
    if f in afterReaching {
      causes := causes + afterReaching[f];
    }
  }

  method FormulaImpacts(
    before: Document, after: Document, olds: ValueMap, news: ValueMap, beforeGraph: DependencyGraph, afterGraph: DependencyGraph
  ) returns (impacts: seq<Impact>)
    requires Exact(beforeGraph.View(), before) && Exact(afterGraph.View(), after)
    ensures AreImpacts(before, after, olds, news, StoredChanges(before, after), impacts)
    ensures forall f :: Names(impacts, f) <==>
      (IsFormula(before, f) || IsFormula(after, f)) && f in olds && f in news && olds[f] != news[f]
  {
    var changed := ChangedFields(before, after);
    var impacted := set f | f in Formulas(before) + Formulas(after) && IsImpacted(before, after, olds, news, f);
    var beforeReaching := ReachingFields(beforeGraph, changed, impacted, before);
    var afterReaching := ReachingFields(afterGraph, changed, impacted, after);
    impacts := [];
    var work := impacted;
    while work != {}
      invariant work <= impacted && ImpactsSoFar(before, after, olds, news, changed, impacted, work, impacts)
    {
      var formula := LeastCell(work);
      var causes := CausesOf(formula, changed, beforeReaching, afterReaching);
      CausesAreExact(before, after, changed, impacted, beforeReaching, afterReaching, formula, causes);
      var impact := Impact(formula, olds[formula], news[formula], causes);
      OneMoreImpact(before, after, olds, news, changed, impacted, work, impacts, impact);
      impacts, work := impacts + [impact], work - {formula};
    }
    assert impacted - {} == impacted;
    ImpactsAreImpacted(before, after, olds, news, changed, impacts);
  }

  // The listed fields are the formulas of either document with two values that
  // differ.
  lemma ImpactsAreImpacted(
    before: Document, after: Document, olds: ValueMap, news: ValueMap, changed: set<FieldRef>, impacts: seq<Impact>
  )
    requires AreImpacts(before, after, olds, news, changed, impacts)
    ensures forall f :: Names(impacts, f) <==>
      (IsFormula(before, f) || IsFormula(after, f)) && f in olds && f in news && olds[f] != news[f]
  {
    forall f ensures (f in Formulas(before) <==> IsFormula(before, f)) && (f in Formulas(after) <==> IsFormula(after, f)) {
      if IsFormula(before, f) { InCells(before, f); }
      if IsFormula(after, f) { InCells(after, f); }
    }
    forall f | Names(impacts, f) ensures IsImpacted(before, after, olds, news, f) {
      var i :| 0 <= i < |impacts| && impacts[i].field == f;
      assert IsImpactOf(before, after, olds, news, changed, impacts[i]);
    }
  }

  ghost predicate Names(impacts: seq<Impact>, f: FieldRef) {
    exists i :: 0 <= i < |impacts| && impacts[i].field == f
  }

  ghost predicate ImpactsSoFar(
    before: Document, after: Document, olds: ValueMap, news: ValueMap, changed: set<FieldRef>, impacted: set<FieldRef>,
    work: set<FieldRef>, impacts: seq<Impact>
  ) {
    && (forall i :: 0 <= i < |impacts| ==>
          impacts[i].field in impacted - work && IsImpactOf(before, after, olds, news, changed, impacts[i]))
    && (forall f, g :: f in impacted - work && g in work ==> AtMost(f, g))
    && (forall i, j :: 0 <= i < j < |impacts| ==> AtMost(impacts[i].field, impacts[j].field) && impacts[i].field != impacts[j].field)
    && forall f :: f in impacted - work ==> Names(impacts, f)
  }

  lemma OneMoreImpact(
    before: Document, after: Document, olds: ValueMap, news: ValueMap, changed: set<FieldRef>, impacted: set<FieldRef>,
    work: set<FieldRef>, impacts: seq<Impact>, impact: Impact
  )
    requires work <= impacted && ImpactsSoFar(before, after, olds, news, changed, impacted, work, impacts)
    requires impact.field in work && (forall g :: g in work ==> AtMost(impact.field, g))
    requires IsImpactOf(before, after, olds, news, changed, impact)
    ensures ImpactsSoFar(before, after, olds, news, changed, impacted, work - {impact.field}, impacts + [impact])
  {
    var more := impacts + [impact];
    forall f | f in impacted - (work - {impact.field}) ensures Names(more, f) {
      if f == impact.field {
        assert more[|impacts|].field == f;
      } else {
        assert Names(impacts, f);
        var i :| 0 <= i < |impacts| && impacts[i].field == f;
        assert more[i].field == f;
      }
    }
  }

  lemma CausesAreExact(
    before: Document, after: Document, changed: set<FieldRef>, targets: set<FieldRef>, beforeReaching: Reaching,
    afterReaching: Reaching, f: FieldRef, causes: set<FieldRef>
  )
    requires IsReaching(DependencyMap(before), changed, targets, beforeReaching)
    requires IsReaching(DependencyMap(after), changed, targets, afterReaching) && f in targets
    requires forall c :: c in causes <==>
      (c == f && f in changed) || Recorded(beforeReaching, f, c) || Recorded(afterReaching, f, c)
    ensures forall c :: c in causes <==> IsCause(before, after, changed, f, c)
  {
    forall c ensures c in causes <==> IsCause(before, after, changed, f, c) {
      assert Recorded(beforeReaching, f, c) <==> ReachesTarget(DependencyMap(before), changed, targets, f, c);
      assert Recorded(afterReaching, f, c) <==> ReachesTarget(DependencyMap(after), changed, targets, f, c);
    }
  }

  // An impact without a cause reads a row that is on one side only or moved:
  // every other one names a changed field.
  lemma ImpactsHaveCauses(rules: Rules, s: Snapshot, t: Snapshot, impacts: seq<Impact>, i: nat)
    requires Coherent(t.document) && Solves(rules, s) && Solves(rules, t)
    requires AreImpacts(s.document, t.document, s.values, t.values, StoredChanges(s.document, t.document), impacts)
    requires i < |impacts|
    ensures var sources := RowSources(s.document, t.document);
      impacts[i].causes != {} || impacts[i].field in sources || LeadsTo(DependencyMap(t.document), impacts[i].field, sources)
  {
    var changed, f := StoredChanges(s.document, t.document), impacts[i].field;
    var sources := RowSources(s.document, t.document);
    var g := DependencyMap(t.document);
    assert IsImpactOf(s.document, t.document, s.values, t.values, changed, impacts[i]);
    if f in changed {
      assert IsCause(s.document, t.document, changed, f, f);
    } else if f !in sources && !LeadsTo(g, f, sources) {
      if !LeadsTo(g, f, changed + sources) {
        UnreachedKeepsValue(rules, s, t, f);
        assert false;
      }
      var c :| c in changed + sources && Precedes(g, f, c);
      assert IsCause(s.document, t.document, changed, f, c);
    }
  }

  // No formula reads a column that gained or lost a row, or names a cell of a
  // row that was added, removed or moved.
  ghost predicate RowsUnread(before: Document, after: Document) {
    && (forall f :: f in Formulas(before) + Formulas(after) ==>
          !ReadsChangedColumn(before, after, f) && !ReadsChangedColumn(after, before, f))
    && (forall f, c :: f in Formulas(after) && c in DirectReferences(f, FormulaAt(after, f)) ==>
          !RowChanged(before, after, c.entity))
  }

  lemma UnreadRowsAreNotRead(before: Document, after: Document, f: FieldRef, d: FieldRef)
    requires RowsUnread(before, after) && Edge(DependencyMap(after), f, d)
    ensures !RowChanged(before, after, d.entity)
  {
    var e := FormulaAt(after, f);
    if d !in DirectReferences(f, e) {
      var k :| k in Columns(e) && d in Slots(after, k);
      assert !ReadsChangedColumn(after, before, f);
      assert d.entity in Rows(before, k.schema);
    }
  }

  lemma SourcesAreOfChangedRows(before: Document, after: Document, c: FieldRef)
    requires RowsUnread(before, after) && c in RowSources(before, after)
    ensures RowChanged(before, after, c.entity)
  {
  }

  lemma ReachedRowsStayed(before: Document, after: Document, f: FieldRef, c: FieldRef)
    requires RowsUnread(before, after) && !RowChanged(before, after, f.entity) && Precedes(DependencyMap(after), f, c)
    ensures !RowChanged(before, after, c.entity)
  {
    var g := DependencyMap(after);
    var kept := iset d: FieldRef | !RowChanged(before, after, d.entity);
    forall x, d | x in kept && Edge(g, x, d) ensures d in kept {
      UnreadRowsAreNotRead(before, after, x, d);
    }
    var m :| Edge(g, f, m) && Reaches(g, m, c);
    ReachesStays(g, kept, m, c);
  }

  lemma UnreadRowsAreNoSource(before: Document, after: Document, f: FieldRef)
    requires RowsUnread(before, after) && !RowChanged(before, after, f.entity)
    ensures var sources := RowSources(before, after);
      f !in sources && !LeadsTo(DependencyMap(after), f, sources)
  {
    var sources, g := RowSources(before, after), DependencyMap(after);
    forall r | r in sources ensures r != f && !Precedes(g, f, r) {
      SourcesAreOfChangedRows(before, after, r);
      if Precedes(g, f, r) { ReachedRowsStayed(before, after, f, r); }
    }
  }

  // Rows may come and go where no formula reads them: then every impact on a
  // row that stayed names a cause.
  lemma UnreadRowsNeedNoCause(rules: Rules, s: Snapshot, t: Snapshot, impacts: seq<Impact>, i: nat)
    requires Coherent(t.document) && Solves(rules, s) && Solves(rules, t)
    requires AreImpacts(s.document, t.document, s.values, t.values, StoredChanges(s.document, t.document), impacts)
    requires i < |impacts| && RowsUnread(s.document, t.document)
    requires !RowChanged(s.document, t.document, impacts[i].field.entity)
    ensures impacts[i].causes != {}
  {
    ImpactsHaveCauses(rules, s, t, impacts, i);
    UnreadRowsAreNoSource(s.document, t.document, impacts[i].field);
  }
}
