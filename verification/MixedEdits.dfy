/**
 What columns of two schemas in one conditional do to edits: an update that
 names every changed cell ends in other records than a rebuild, and a change
 goes unnamed among the causes of the impact it has.
 */
module MixedEdits {
  import opened Model
  import opened FieldOrder
  import opened Expressions
  import opened Evaluator
  import opened Locality
  import opened Pregraph
  import opened Graphs
  import opened DependencyGraphs
  import opened Propagation
  import opened Systems
  import opened Solutions
  import opened Calculations
  import opened Coverage
  import opened RootImpact
  import opened Retained
  import opened Impacts
  import opened MixedSchemas

  // ---- An update against a rebuild ----

  // The row before its declared cell becomes the number the test asks for.
  function Earlier(): Document {
    MixedRow(Number(2), FormulaValue(One))
  }

  function Later(): Document {
    MixedRow(Number(1), FormulaValue(One))
  }

  // The records of the earlier document: no test reaches the undeclared cell.
  function EarlierStart(): Snapshot {
    Snapshot(Earlier(), map[Declared := Number(2), Undeclared := Number(1)], map[])
  }

  function EarlierRecords(rules: Rules): Snapshot {
    WithOutcome(EarlierStart(), Formula, Finish(rules.count(0)))
  }

  function DeclaredEdit(): Edit {
    Edit(Earlier(), Later(), {Declared}, {Declared, Formula}, {Declared, Formula})
  }

  // What the update keeps, once the edited cell has its new value.
  function LaterKept(): Snapshot {
    Snapshot(Later(), map[Declared := Number(1), Undeclared := Number(1)], map[])
  }

  // The order the code takes: always the least of the ready formulas.
  ghost predicate TakesLeast(y: System, pending: set<FieldRef>, order: seq<FieldRef>)
    decreases |order|
  {
    order != [] ==>
      && (forall g :: g in pending && g in y.free && y.free[g] !! pending ==> AtMost(order[0], g))
      && TakesLeast(y, pending - {order[0]}, order[1..])
  }

  lemma EarlierOutcomes(rules: Rules, s: Snapshot)
    requires s.document == Earlier() && Declared in s.values && s.values[Declared] == Number(2) && Declared !in s.failures
    ensures OracleOf(rules)(s, Formula) == Finish(rules.count(0))
    ensures OracleOf(rules)(s, Undeclared) == Ok(Number(1))
  {
    ConditionalOutcome(rules, s, Number(2), FormulaValue(One));
    OneOutcome(rules, s, Number(2));
    WalkOfMixedRow(rules, s, Number(2), FormulaValue(One));
  }

  lemma EarlierSettles(rules: Rules, y: System, s: Snapshot)
    requires y.document == Earlier() && s == EarlierRecords(rules)
    requires y.free == map[Formula := {Declared}, Undeclared := {}] && y.fixed == map[Declared := Ok(Number(2))]
    ensures IsSolution(y, OracleOf(rules), s)
  {
    EarlierOutcomes(rules, s);
  }

  lemma EarlierSolves(rules: Rules)
    ensures Solves(rules, EarlierRecords(rules))
  {
    MixedRowSystem(Number(2), One, SystemOf(Earlier()));
    EarlierSettles(rules, SystemOf(Earlier()), EarlierRecords(rules));
    SolvesIsSolution(rules, EarlierRecords(rules));
  }

  lemma RowStays(before: Number, after: Number, v: Value, w: Value, e: EntityId)
    ensures !RowChanged(MixedRow(before, v), MixedRow(after, w), e)
  {
  }

  lemma OnlyDeclaredChanged(c: FieldRef)
    ensures Stored(Earlier(), c) != Stored(Later(), c) ==> c == Declared
  {
  }

  lemma EditIsCovered()
    ensures Covers(Earlier(), Later(), {Declared})
  {
    forall e ensures !RowChanged(Earlier(), Later(), e) {
      RowStays(Number(2), Number(1), FormulaValue(One), FormulaValue(One), e);
    }
    forall c | Stored(Earlier(), c) != Stored(Later(), c) ensures c in {Declared} {
      OnlyDeclaredChanged(c);
    }
  }

  lemma RowsStay(schema: SchemaId)
    ensures Rows(Earlier(), schema) == Rows(Later(), schema)
  {
  }

  lemma ConditionalReadsFirst(document: Document)
    requires Formula in Formulas(document) && FormulaAt(document, Formula) == Mixed
    ensures ReadsColumnOf(document, Formula, {0})
  {
    MixedReads();
    assert ColumnRef(0, 1) in Columns(Mixed);
  }

  lemma NoColumnsNoReader(document: Document, f: FieldRef, schemas: set<SchemaId>)
    requires f in Formulas(document) ==> Columns(FormulaAt(document, f)) == {}
    ensures !ReadsColumnOf(document, f, schemas)
  {
  }

  lemma ReadersOfFirstSchema(declared: Number, f: FieldRef)
    ensures ReadsColumnOf(MixedRow(declared, FormulaValue(One)), f, {0}) <==> f == Formula
  {
    var document := MixedRow(declared, FormulaValue(One));
    MixedRowIsPlain(declared, FormulaValue(One));
    if f == Formula {
      ConditionalReadsFirst(document);
    } else {
      SecondIsSmall(Undeclared, One);
      NoColumnsNoReader(document, f, {0});
    }
  }

  lemma OneReaderPromoted(before: Document, after: Document, roots: set<FieldRef>, f: FieldRef, schemas: set<SchemaId>)
    requires RootSchemas(before, after, roots) == schemas && forall g :: ReadsColumnOf(before, g, schemas) <==> g == f
    ensures Promoted(before, after, roots) == roots + {f}
  {
    assert ReadsColumnOf(before, f, schemas);
  }

  lemma EditedSchemas()
    ensures RootSchemas(Earlier(), Later(), {Declared}) == {0}
  {
    assert SchemasAround(Earlier(), Later(), 0) == {0};
  }

  // The conditional reads a column of the edited row's schema, so it is dirty
  // as well; the undeclared formula is not.
  lemma EditPromotes()
    ensures Promoted(Earlier(), Later(), {Declared}) == {Declared, Formula}
  {
    EditedSchemas();
    forall g ensures ReadsColumnOf(Earlier(), g, {0}) <==> g == Formula {
      ReadersOfFirstSchema(Number(2), g);
    }
    OneReaderPromoted(Earlier(), Later(), {Declared}, Formula, {0});
  }

  lemma MixedRowEdges(declared: Number, f: FieldRef, d: FieldRef)
    requires Edge(DependencyMap(MixedRow(declared, FormulaValue(One))), f, d)
    ensures f == Formula && d == Declared
  {
    var document := MixedRow(declared, FormulaValue(One));
    MixedRowIsPlain(declared, FormulaValue(One));
    MixedDependencies(declared, FormulaValue(One));
    SecondDependencies(document, One);
  }

  lemma EditIsSound()
    ensures Sound(DeclaredEdit())
  {
    var edit := DeclaredEdit();
    EditIsCovered();
    forall f | f !in edit.promoted ensures ColumnsUnmoved(Earlier(), Later(), f) {
      forall schema ensures Rows(Earlier(), schema) == Rows(Later(), schema) { RowsStay(schema); }
    }
    forall f, d | Edge(DependencyMap(Later()), f, d) ensures f in edit.dirty {
      MixedRowEdges(Number(1), f, d);
    }
  }

  lemma KeptAgrees(rules: Rules, c: FieldRef)
    requires c !in DeclaredEdit().dirty
    ensures AgreesAt(EarlierRecords(rules), LaterKept(), c)
  {
  }

  lemma StartsFromSystem(document: Document, y: System, s: Snapshot, c: FieldRef)
    requires y == SystemOf(document)
    requires (c in y.fixed && Records(s, c, y.fixed[c])) || (c in y.free && c !in s.values && c !in s.failures)
    ensures c in Nodes(document) && StartsRight(document, s, c)
  {
    FixedInSystem(document, y, c);
  }

  lemma KeptStartsRight(y: System, c: FieldRef)
    requires y == SystemOf(Later()) && c in {Formula, Declared}
    requires y.free == map[Formula := {Declared}, Undeclared := {}] && y.fixed == map[Declared := Ok(Number(1))]
    ensures c in Nodes(Later()) && StartsRight(Later(), LaterKept(), c)
  {
    StartsFromSystem(Later(), y, LaterKept(), c);
  }

  lemma RestartsBy(edit: Edit, s: Snapshot, t: Snapshot)
    requires AgreeOffDirty(edit, s, t)
    requires forall c :: c in edit.dirty ==> c in Nodes(edit.after) && StartsRight(edit.after, t, c)
    ensures Restarted(edit, s, t)
  {
  }

  lemma UpdateRestarts(rules: Rules, edit: Edit, s: Snapshot, t: Snapshot)
    requires edit == DeclaredEdit() && s == EarlierRecords(rules) && t == LaterKept()
    ensures Restarted(edit, s, t)
  {
    MixedRowSystem(Number(1), One, SystemOf(Later()));
    forall c | c in edit.dirty ensures c in Nodes(edit.after) && StartsRight(edit.after, t, c) {
      KeptStartsRight(SystemOf(Later()), c);
    }
    KeptAgreesOff(rules, edit, s, t);
    RestartsBy(edit, s, t);
  }

  lemma KeptAgreesOff(rules: Rules, edit: Edit, s: Snapshot, t: Snapshot)
    requires edit == DeclaredEdit() && s == EarlierRecords(rules) && t == LaterKept()
    ensures AgreeOffDirty(edit, s, t)
  {
    forall c | c !in edit.dirty ensures AgreesAt(s, t, c) {
      KeptAgrees(rules, c);
    }
  }

  // The update evaluates the conditional against the value the undeclared
  // formula still has.
  lemma UpdateCounts(rules: Rules)
    ensures Records(Run(OracleOf(rules), LaterKept(), [Formula]), Formula, Finish(rules.count(1)))
  {
    var oracle, s := OracleOf(rules), LaterKept();
    Outcomes(rules, s);
    assert [Formula][1..] == [];
    assert Run(oracle, s, [Formula]) == WithOutcome(s, Formula, oracle(s, Formula));
  }

  lemma LeastIsTaken(y: System)
    requires y.free == map[Formula := {Declared}, Undeclared := {}]
    ensures Schedules(y, {Formula}, [Formula]) && TakesLeast(y, {Formula}, [Formula])
    ensures TakesLeast(y, {Formula, Undeclared}, FormulaFirst)
  {
    assert [Formula][1..] == [] && FormulaFirst[1..] == [Undeclared] && [Undeclared][1..] == [];
    assert Schedules(y, {}, [Formula][1..]) && TakesLeast(y, {}, [Formula][1..]);
    assert {Formula, Undeclared} - {Formula} == {Undeclared};
    assert TakesLeast(y, {}, [Undeclared][1..]) && TakesLeast(y, {Undeclared}, [Undeclared]);
  }

  // An edit whose roots cover it, from records that solve the old document: the
  // dirty part is sound, evaluating it in the order the code takes counts the
  // row, and evaluating the whole new document in that order fails it.
  lemma UpdateDiffersFromRebuild(rules: Rules)
    ensures Solves(rules, EarlierRecords(rules)) && Covers(Earlier(), Later(), {Declared})
    ensures Promoted(Earlier(), Later(), {Declared}) == DeclaredEdit().promoted && Sound(DeclaredEdit())
    ensures Restarted(DeclaredEdit(), EarlierRecords(rules), LaterKept())
    ensures var y, oracle, both := SystemOf(Later()), OracleOf(rules), {Formula, Undeclared};
      && Schedules(y, {Formula}, [Formula]) && TakesLeast(y, {Formula}, [Formula])
      && Pass(y, oracle, Start, both) && Schedules(y, both, FormulaFirst) && TakesLeast(y, both, FormulaFirst)
      && Records(Run(oracle, LaterKept(), [Formula]), Formula, Finish(rules.count(1)))
      && Records(Run(oracle, Start, FormulaFirst), Formula, Err(FailedDependencies({Undeclared})))
  {
    EarlierSolves(rules);
    EditIsCovered();
    EditPromotes();
    EditIsSound();
    UpdateRestarts(rules, DeclaredEdit(), EarlierRecords(rules), LaterKept());
    MixedRowSystem(Number(1), One, SystemOf(Later()));
    LeastIsTaken(SystemOf(Later()));
    BothOrders(SystemOf(OneRow), OracleOf(rules));
    BothRuns(rules);
    UpdateCounts(rules);
  }

  // ---- An impact whose cause goes unnamed ----

  function WithNumber(n: Number): Document {
    MixedRow(Number(1), NumberValue(n))
  }

  lemma NumberRowEdges(n: Number, f: FieldRef, d: FieldRef)
    ensures Edge(DependencyMap(WithNumber(n)), f, d) <==> f == Formula && d == Declared
  {
    MixedRowIsPlain(Number(1), NumberValue(n));
    MixedDependencies(Number(1), NumberValue(n));
  }

  lemma NumberRowFormula(n: Number)
    ensures FixedOutcome(WithNumber(n), Formula) == None
  {
    var document := WithNumber(n);
    MixedRowIsPlain(Number(1), NumberValue(n));
    MixedDependencies(Number(1), NumberValue(n));
    NothingFailsEarly(Number(1), NumberValue(n), Formula);
    NoEdgesNoCycles(document, Formula);
  }

  lemma NumberCellRecord(rules: Rules, s: Snapshot, n: Number, c: FieldRef, v: Number)
    requires s.document == WithNumber(n) && Solves(rules, s)
    requires c in {Declared, Undeclared} && Stored(s.document, c) == Some(NumberValue(v))
    ensures c in s.values && s.values[c] == v && c !in s.failures
  {
    MixedRowIsPlain(Number(1), NumberValue(n));
    NothingFailsEarly(Number(1), NumberValue(n), c);
    assert RecordsOutcome(rules, s, c);
  }

  // The conditional counts its row just when the undeclared number is one.
  lemma NumberRowOutcome(rules: Rules, s: Snapshot, n: Number)
    requires s.document == WithNumber(n) && Solves(rules, s)
    ensures Records(s, Formula, Finish(rules.count(Hits(n))))
  {
    MixedRowIsPlain(Number(1), NumberValue(n));
    NumberCellRecord(rules, s, n, Declared, Number(1));
    NumberCellRecord(rules, s, n, Undeclared, n);
    NumberRowFormula(n);
    ConditionalOutcome(rules, s, Number(1), NumberValue(n));
    WalkOfMixedRow(rules, s, Number(1), NumberValue(n));
    assert RecordsOutcome(rules, s, Formula);
  }

  lemma NoPathToUndeclared(n: Number)
    ensures !Precedes(DependencyMap(WithNumber(n)), Formula, Undeclared)
  {
    var g := DependencyMap(WithNumber(n));
    if Precedes(g, Formula, Undeclared) {
      var m :| Edge(g, Formula, m) && Reaches(g, m, Undeclared);
      NumberRowEdges(n, Formula, m);
      ReachesSplit(g, m, Undeclared);
      var k :| Edge(g, Declared, k) && Reaches(g, k, Undeclared);
      NumberRowEdges(n, Declared, k);
      assert false;
    }
  }

  lemma OnlyUndeclaredChanged(n: Number, m: Number, c: FieldRef)
    ensures c in StoredChanges(WithNumber(n), WithNumber(m)) ==> c == Undeclared
  {
  }

  // An impacted formula that no changed cell is or reaches has no cause.
  lemma NothingCaused(
    before: Document, after: Document, olds: ValueMap, news: ValueMap, changed: set<FieldRef>, impacts: seq<Impact>, f: FieldRef
  )
    requires AreImpacts(before, after, olds, news, changed, impacts) && IsImpacted(before, after, olds, news, f)
    requires forall c :: c in changed ==> c != f && !Precedes(DependencyMap(before), f, c) && !Precedes(DependencyMap(after), f, c)
    ensures exists i :: 0 <= i < |impacts| && impacts[i].field == f && impacts[i].causes == {}
  {
    assert Names(impacts, f);
    var i :| 0 <= i < |impacts| && impacts[i].field == f;
    assert IsImpactOf(before, after, olds, news, changed, impacts[i]);
    forall c ensures c !in impacts[i].causes {
      assert !IsCause(before, after, changed, f, c);
    }
  }

  lemma CountIsImpacted(rules: Rules, s: Snapshot, t: Snapshot, n: Number, m: Number)
    requires s.document == WithNumber(n) && t.document == WithNumber(m) && Solves(rules, s) && Solves(rules, t)
    requires var x, y := rules.count(Hits(n)), rules.count(Hits(m)); x.Finite? && y.Finite? && x != y
    ensures IsImpacted(s.document, t.document, s.values, t.values, Formula)
  {
    MixedRowIsPlain(Number(1), NumberValue(n));
    NumberRowOutcome(rules, s, n);
    NumberRowOutcome(rules, t, m);
  }

  // Every row stays and at most one cell changes, from one that is counted to
  // one that is not or back; the count changes with it, and names no cause.
  lemma UndeclaredChangeHasNoCause(rules: Rules, s: Snapshot, t: Snapshot, n: Number, m: Number, impacts: seq<Impact>)
    requires s.document == WithNumber(n) && t.document == WithNumber(m) && Solves(rules, s) && Solves(rules, t)
    requires AreImpacts(s.document, t.document, s.values, t.values, StoredChanges(s.document, t.document), impacts)
    requires var x, y := rules.count(Hits(n)), rules.count(Hits(m)); x.Finite? && y.Finite? && x != y
    ensures forall e :: !RowChanged(s.document, t.document, e)
    ensures exists i :: 0 <= i < |impacts| && impacts[i].field == Formula && impacts[i].causes == {}
  {
    forall e ensures !RowChanged(s.document, t.document, e) {
      RowStays(Number(1), Number(1), NumberValue(n), NumberValue(m), e);
    }
    CountIsImpacted(rules, s, t, n, m);
    var changed := StoredChanges(s.document, t.document);
    forall c | c in changed
      ensures c != Formula && !Precedes(DependencyMap(s.document), Formula, c) && !Precedes(DependencyMap(t.document), Formula, c)
    {
      OnlyUndeclaredChanged(n, m, c);
      NoPathToUndeclared(n);
      NoPathToUndeclared(m);
    }
    NothingCaused(s.document, t.document, s.values, t.values, changed, impacts, Formula);
  }
}
