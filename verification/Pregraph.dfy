/** Failures decided before the dependency graph is looked at. */
module Pregraph {
  import opened Model
  import opened Expressions
  import opened Evaluator
  import opened Locality

  function ColumnFailureOf(document: Document, column: ColumnRef, needsNumber: bool): Option<ColumnFailure> {
    if column.schema !in document.schemas then Some(MissingSchema)
    else
      var fields := document.schemas[column.schema].fields;
      if column.field !in fields then Some(MissingField)
      else
        var fieldType := fields[column.field].fieldType;
        if (needsNumber && fieldType != NumberType) || fieldType.ReferenceType? then Some(NonNumericColumn) else None
  }

  function ColumnFailures(document: Document, e: Expression): map<ColumnRef, ColumnFailure> {
    map k | k in Columns(e) && ColumnFailureOf(document, k, k in NumericColumns(e)).Some?
      :: ColumnFailureOf(document, k, k in NumericColumns(e)).value
  }

  // The reference names an existing row and field of the right type.
  function StructuralFailure(document: Document, cell: FieldRef, numeric: bool): Option<ReferenceFailure> {
    if cell.entity !in document.entities then Some(Missing)
    else
      var schema := document.entities[cell.entity].schema;
      if schema !in document.schemas || cell.field !in document.schemas[schema].fields then Some(Missing)
      else if numeric && document.schemas[schema].fields[cell.field].fieldType != NumberType then Some(NonNumeric)
      else None
  }

  // The same, and a numeric reference must also hold a number or a formula, or
  // be an optional blank.
  function ReferenceFailureOf(document: Document, cell: FieldRef, numeric: bool): Option<ReferenceFailure> {
    if StructuralFailure(document, cell, numeric).Some? then StructuralFailure(document, cell, numeric)
    else if !numeric then None
    else match Stored(document, cell)
      case Some(NumberValue(_)) => None
      case Some(FormulaValue(_)) => None
      case Some(_) => Some(NonNumeric)
      case None =>
        if document.schemas[document.entities[cell.entity].schema].fields[cell.field].required then Some(Missing) else None
  }

  // A value missing inside an IF branch only is decided at evaluation.
  function UseFailure(document: Document, cell: FieldRef, numeric: bool, unconditional: bool): Option<ReferenceFailure> {
    if unconditional then ReferenceFailureOf(document, cell, numeric) else StructuralFailure(document, cell, numeric)
  }

  // The first cell of a summed column that cannot be read as a number.
  function FirstBadCell(document: Document, cells: seq<FieldRef>): Option<FieldRef> {
    if cells == [] then None
    else if ReferenceFailureOf(document, cells[0], true).Some? then Some(cells[0])
    else FirstBadCell(document, cells[1..])
  }

  function BadUsesIn(document: Document, unconditional: set<FieldRef>, uses: set<(FieldRef, bool)>): set<FieldRef> {
    set u | u in uses && UseFailure(document, u.0, u.1, u.0 in unconditional).Some? :: u.0
  }

  function BadUses(document: Document, owner: FieldRef, e: Expression): set<FieldRef> {
    BadUsesIn(document, UnconditionalReferences(owner, e), ReferenceUses(owner, e, true))
  }

  function BadCellsOf(document: Document, columns: set<ColumnRef>): set<FieldRef> {
    set k | k in columns && FirstBadCell(document, ColumnCells(document, k)).Some?
      :: FirstBadCell(document, ColumnCells(document, k)).value
  }

  function BadColumnCells(document: Document, e: Expression): set<FieldRef> {
    BadCellsOf(document, TotalColumns(e))
  }

  function BadTargets(document: Document, node: FieldRef): set<FieldRef> {
    (if ReferenceFailureOf(document, node, true).Some? then {node} else {})
    + if IsFormula(document, node)
      then BadUses(document, node, FormulaAt(document, node)) + BadColumnCells(document, FormulaAt(document, node))
      else {}
  }

  // However a target was found, its recorded failure is its failure as a
  // numeric reference, so the order of the checks does not matter.
  lemma UseFailureIsNumericFailure(document: Document, cell: FieldRef, numeric: bool, unconditional: bool)
    requires UseFailure(document, cell, numeric, unconditional).Some?
    ensures ReferenceFailureOf(document, cell, true) == UseFailure(document, cell, numeric, unconditional)
  {
  }

  lemma {:induction false} FirstBadCellIsBad(document: Document, cells: seq<FieldRef>)
    ensures var bad := FirstBadCell(document, cells);
      bad.Some? ==> bad.value in cells && ReferenceFailureOf(document, bad.value, true).Some?
  {
    if cells != [] && !ReferenceFailureOf(document, cells[0], true).Some? {
      FirstBadCellIsBad(document, cells[1..]);
      assert cells == [cells[0]] + cells[1..];
    }
  }

  lemma BadTargetsAreBad(document: Document, node: FieldRef)
    ensures forall c :: c in BadTargets(document, node) ==> ReferenceFailureOf(document, c, true).Some?
  {
    forall c | c in BadTargets(document, node) ensures ReferenceFailureOf(document, c, true).Some? {
      if IsFormula(document, node) {
        var e := FormulaAt(document, node);
        if c in BadUses(document, node, e) {
          var u :| u in ReferenceUses(node, e, true)
                   && UseFailure(document, u.0, u.1, u.0 in UnconditionalReferences(node, e)).Some? && u.0 == c;
          UseFailureIsNumericFailure(document, u.0, u.1, u.0 in UnconditionalReferences(node, e));
        }
        if c in BadColumnCells(document, e) {
          var k :| k in TotalColumns(e) && FirstBadCell(document, ColumnCells(document, k)) == Some(c);
          FirstBadCellIsBad(document, ColumnCells(document, k));
        }
      }
    }
  }

  function InvalidTargets(document: Document, node: FieldRef): map<FieldRef, ReferenceFailure> {
    BadTargetsAreBad(document, node);
    map c | c in BadTargets(document, node) :: ReferenceFailureOf(document, c, true).value
  }

  // The structure, type and column failures of a formula, in that order.
  function FormulaShapeFailure(document: Document, e: Expression): Option<CalculationFailure> {
    if StructureError(e).Some? then Some(InvalidExpression(StructureError(e).value))
    else if TypeOf(e) != Some(NumberResult) then Some(TypeMismatch)
    else if ColumnFailures(document, e) != map[] then Some(InvalidColumn(ColumnFailures(document, e)))
    else None
  }

  // The failure of one calculation node, decided from the document alone.
  function PregraphFailure(document: Document, node: FieldRef): Option<CalculationFailure> {
    if IsFormula(document, node) && FormulaShapeFailure(document, FormulaAt(document, node)).Some?
    then FormulaShapeFailure(document, FormulaAt(document, node))
    else if BadTargets(document, node) != {} then Some(InvalidReferences(InvalidTargets(document, node)))
    else None
  }

  function PregraphMap(document: Document, nodes: set<FieldRef>): FailureMap {
    map c | c in nodes && PregraphFailure(document, c).Some? :: PregraphFailure(document, c).value
  }

  // pregraph_failures: structure and type first, then columns, then targets;
  // each phase skips what an earlier one failed.
  method PregraphFailures(document: Document, nodes: set<FieldRef>) returns (failures: FailureMap)
    ensures failures == PregraphMap(document, nodes)
  {
    failures := map[];
    var formulas := set c | c in nodes && IsFormula(document, c);
    var work := formulas;
    while work != {}
      invariant work <= formulas
      invariant failures.Keys <= formulas - work
      invariant forall c :: c in failures ==> Some(failures[c]) == FormulaShapeFailure(document, FormulaAt(document, c))
      invariant forall c :: c in formulas - work ==>
        (c in failures <==> StructureError(FormulaAt(document, c)).Some? || TypeOf(FormulaAt(document, c)) != Some(NumberResult))
    {
      var formula :| formula in work;
      var e := FormulaAt(document, formula);
      if StructureError(e).Some? {
        failures := failures[formula := InvalidExpression(StructureError(e).value)];
      } else if TypeOf(e) != Some(NumberResult) {
        failures := failures[formula := TypeMismatch];
      }
      work := work - {formula};
    }
    ghost var shaped := failures;
    work := formulas;
    while work != {}
      invariant work <= formulas
      invariant failures.Keys <= formulas && shaped.Keys <= failures.Keys && failures.Keys <= shaped.Keys + (formulas - work)
      invariant forall c :: c in failures ==> Some(failures[c]) == FormulaShapeFailure(document, FormulaAt(document, c))
      invariant forall c :: c in formulas - work ==> (c in failures <==> FormulaShapeFailure(document, FormulaAt(document, c)).Some?)
    {
      var formula :| formula in work;
      if formula !in failures {
        var columns := ColumnFailures(document, FormulaAt(document, formula));
        if columns != map[] {
          failures := failures[formula := InvalidColumn(columns)];
        }
      }
      work := work - {formula};
    }
    failures := TargetFailures(document, nodes, failures);
  }

  method TargetFailures(document: Document, nodes: set<FieldRef>, shaped: FailureMap) returns (failures: FailureMap)
    requires forall c :: c in shaped ==>
      c in nodes && IsFormula(document, c) && Some(shaped[c]) == FormulaShapeFailure(document, FormulaAt(document, c))
    requires forall c :: c in nodes && IsFormula(document, c) ==>
      (FormulaShapeFailure(document, FormulaAt(document, c)).Some? ==> c in shaped)
    ensures failures == PregraphMap(document, nodes)
  {
    failures := shaped;
    var columnTargets: map<ColumnRef, Option<FieldRef>> := map[];
    var work := nodes;
    while work != {}
      invariant work <= nodes
      invariant KnownColumns(document, columnTargets)
      invariant forall c :: c in failures ==> c in nodes && (c in shaped || c !in work)
      invariant forall c :: c in shaped ==> c in failures && failures[c] == shaped[c]
      invariant forall c :: c in nodes - work ==> (c in failures <==> PregraphFailure(document, c).Some?)
      invariant forall c :: c in failures ==> Some(failures[c]) == PregraphFailure(document, c)
    {
      var node :| node in work;
      if node !in failures {
        var targets: map<FieldRef, ReferenceFailure>;
        targets, columnTargets := NodeTargets(document, node, columnTargets);
        if targets != map[] {
          failures := failures[node := InvalidReferences(targets)];
        }
        assert (targets != map[]) <==> BadTargets(document, node) != {} by {
          assert targets.Keys == BadTargets(document, node);
          assert targets == map[] <==> targets.Keys == {};
        }
      }
      work := work - {node};
    }
  }

  // The invalid targets of one node; a column's first bad cell is resolved
  // once for the whole phase.
  method NodeTargets(document: Document, node: FieldRef, known: map<ColumnRef, Option<FieldRef>>)
      returns (targets: map<FieldRef, ReferenceFailure>, columnTargets: map<ColumnRef, Option<FieldRef>>)
    requires KnownColumns(document, known)
    ensures KnownColumns(document, columnTargets)
    ensures targets == InvalidTargets(document, node) && targets.Keys == BadTargets(document, node)
  {
    columnTargets, targets := known, Record(map[], node, ReferenceFailureOf(document, node, true));
    if IsFormula(document, node) {
      var e := FormulaAt(document, node);
      targets := AddUseTargets(document, node, e, targets);
      targets, columnTargets := AddColumnTargets(document, e, targets, columnTargets);
    }
    RecordedAll(document, node, targets);
  }

  lemma RecordedAll(document: Document, node: FieldRef, targets: map<FieldRef, ReferenceFailure>)
    requires RecordsFailures(document, targets) && targets.Keys == BadTargets(document, node)
    ensures targets == InvalidTargets(document, node)
  {
    BadTargetsAreBad(document, node);
  }

  ghost predicate RecordsFailures(document: Document, targets: map<FieldRef, ReferenceFailure>) {
    forall c :: c in targets ==> Some(targets[c]) == ReferenceFailureOf(document, c, true)
  }

  ghost predicate Recorded(
    document: Document, found: map<FieldRef, ReferenceFailure>, bad: set<FieldRef>, targets: map<FieldRef, ReferenceFailure>
  ) {
    RecordsFailures(document, targets) && targets.Keys == found.Keys + bad
  }

  function Record(
    targets: map<FieldRef, ReferenceFailure>, cell: FieldRef, failure: Option<ReferenceFailure>
  ): map<FieldRef, ReferenceFailure> {
    if failure.Some? then targets[cell := failure.value] else targets
  }

  lemma RecordUse(
    document: Document, found: map<FieldRef, ReferenceFailure>, unconditional: set<FieldRef>, uses: set<(FieldRef, bool)>,
    use: (FieldRef, bool), targets: map<FieldRef, ReferenceFailure>
  )
    requires Recorded(document, found, BadUsesIn(document, unconditional, uses), targets)
    ensures Recorded(document, found, BadUsesIn(document, unconditional, uses + {use}),
                     Record(targets, use.0, UseFailure(document, use.0, use.1, use.0 in unconditional)))
  {
    if UseFailure(document, use.0, use.1, use.0 in unconditional).Some? {
      UseFailureIsNumericFailure(document, use.0, use.1, use.0 in unconditional);
    }
    assert BadUsesIn(document, unconditional, uses + {use}) == BadUsesIn(document, unconditional, uses)
      + if UseFailure(document, use.0, use.1, use.0 in unconditional).Some? then {use.0} else {};
  }

  lemma BadCellsWith(document: Document, columns: set<ColumnRef>, column: ColumnRef)
    ensures BadCellsOf(document, columns + {column}) == BadCellsOf(document, columns)
      + match FirstBadCell(document, ColumnCells(document, column)) case Some(cell) => {cell} case None => {}
  {
    var one := match FirstBadCell(document, ColumnCells(document, column)) case Some(cell) => {cell} case None => {};
    forall c | c in BadCellsOf(document, columns + {column}) ensures c in BadCellsOf(document, columns) + one {
      var k :| k in columns + {column} && FirstBadCell(document, ColumnCells(document, k)) == Some(c);
      BadCellOf(document, columns, k, c);
    }
    forall c | c in BadCellsOf(document, columns) + one ensures c in BadCellsOf(document, columns + {column}) {
      if c in one {
        BadCellOf(document, columns + {column}, column, c);
      } else {
        var k :| k in columns && FirstBadCell(document, ColumnCells(document, k)) == Some(c);
        BadCellOf(document, columns + {column}, k, c);
      }
    }
  }

  lemma BadCellOf(document: Document, columns: set<ColumnRef>, k: ColumnRef, c: FieldRef)
    requires FirstBadCell(document, ColumnCells(document, k)) == Some(c)
    ensures k in columns ==> c in BadCellsOf(document, columns)
  {
  }

  // The first bad cell of each column, looked up once per column.
  ghost predicate KnownColumns(document: Document, known: map<ColumnRef, Option<FieldRef>>) {
    forall k :: k in known ==> known[k] == FirstBadCell(document, ColumnCells(document, k))
  }

  function RecordFirst(document: Document, targets: map<FieldRef, ReferenceFailure>, bad: Option<FieldRef>): map<FieldRef, ReferenceFailure> {
    if bad.Some? then Record(targets, bad.value, ReferenceFailureOf(document, bad.value, true)) else targets
  }

  lemma RecordColumn(
    document: Document, found: map<FieldRef, ReferenceFailure>, columns: set<ColumnRef>, column: ColumnRef,
    targets: map<FieldRef, ReferenceFailure>
  )
    requires Recorded(document, found, BadCellsOf(document, columns), targets)
    ensures Recorded(document, found, BadCellsOf(document, columns + {column}),
                     RecordFirst(document, targets, FirstBadCell(document, ColumnCells(document, column))))
  {
    FirstBadCellIsBad(document, ColumnCells(document, column));
    BadCellsWith(document, columns, column);
  }

  method AddUseTargets(document: Document, node: FieldRef, e: Expression, found: map<FieldRef, ReferenceFailure>)
      returns (targets: map<FieldRef, ReferenceFailure>)
    requires RecordsFailures(document, found)
    ensures Recorded(document, found, BadUses(document, node, e), targets)
  {
    targets := found;
    var unconditional := UnconditionalReferences(node, e);
    var uses := ReferenceUses(node, e, true);
    ghost var done: set<(FieldRef, bool)> := {};
    while uses != {}
      invariant uses + done == ReferenceUses(node, e, true)
      invariant Recorded(document, found, BadUsesIn(document, unconditional, done), targets)
    {
      var use :| use in uses;
      RecordUse(document, found, unconditional, done, use, targets);
      targets := Record(targets, use.0, UseFailure(document, use.0, use.1, use.0 in unconditional));
      uses, done := uses - {use}, done + {use};
    }
    assert done == ReferenceUses(node, e, true);
  }

  method AddColumnTargets(
    document: Document, e: Expression, found: map<FieldRef, ReferenceFailure>, known: map<ColumnRef, Option<FieldRef>>
  ) returns (targets: map<FieldRef, ReferenceFailure>, columnTargets: map<ColumnRef, Option<FieldRef>>)
    requires RecordsFailures(document, found)
    requires KnownColumns(document, known)
    ensures Recorded(document, found, BadColumnCells(document, e), targets)
    ensures KnownColumns(document, columnTargets)
  {
    targets, columnTargets := found, known;
    var columns := TotalColumns(e);
    ghost var summed: set<ColumnRef> := {};
    while columns != {}
      invariant columns + summed == TotalColumns(e)
      invariant KnownColumns(document, columnTargets)
      invariant Recorded(document, found, BadCellsOf(document, summed), targets)
    {
      var column :| column in columns;
      if column !in columnTargets {
        columnTargets := columnTargets[column := FirstBadCell(document, ColumnCells(document, column))];
      }
      RecordColumn(document, found, summed, column, targets);
      targets := RecordFirst(document, targets, columnTargets[column]);
      columns, summed := columns - {column}, summed + {column};
    }
    assert summed == TotalColumns(e);
  }

  // ---- The document cells a pregraph failure rests on ----

  lemma SameReferenceFailure(s: Snapshot, t: Snapshot, cell: FieldRef, numeric: bool)
    requires s.document.schemas == t.document.schemas && SameCell(s, t, cell)
    ensures StructuralFailure(s.document, cell, numeric) == StructuralFailure(t.document, cell, numeric)
    ensures ReferenceFailureOf(s.document, cell, numeric) == ReferenceFailureOf(t.document, cell, numeric)
  {
  }

  lemma {:induction false} SameFirstBadCell(s: Snapshot, t: Snapshot, cells: seq<FieldRef>)
    requires s.document.schemas == t.document.schemas && forall c :: c in cells ==> SameCell(s, t, c)
    ensures FirstBadCell(s.document, cells) == FirstBadCell(t.document, cells)
  {
    if cells != [] {
      assert cells == [cells[0]] + cells[1..] && cells[0] in cells;
      SameReferenceFailure(s, t, cells[0], true);
      SameFirstBadCell(s, t, cells[1..]);
    }
  }

  lemma {:induction false} UsesAreReferences(owner: FieldRef, e: Expression, numeric: bool)
    ensures forall u :: u in ReferenceUses(owner, e, numeric) ==> u.0 in DirectReferences(owner, e)
  {
    if !IsCellReference(e) {
      forall c | c in Children(e)
        ensures forall u :: u in ReferenceUses(owner, c, ChildNumeric(e, c, numeric)) ==> u.0 in DirectReferences(owner, c)
      {
        UsesAreReferences(owner, c, ChildNumeric(e, c, numeric));
      }
    }
  }

  lemma {:induction false} TotalsAreColumns(e: Expression)
    ensures TotalColumns(e) <= Columns(e)
  {
    forall c | c in Children(e) ensures TotalColumns(c) <= Columns(c) {
      TotalsAreColumns(c);
    }
  }

  lemma SameBadUses(s: Snapshot, t: Snapshot, owner: FieldRef, e: Expression)
    requires SameReads(s, t, owner, e)
    ensures BadUses(s.document, owner, e) == BadUses(t.document, owner, e)
  {
    UsesAreReferences(owner, e, true);
    forall u | u in ReferenceUses(owner, e, true)
      ensures UseFailure(s.document, u.0, u.1, u.0 in UnconditionalReferences(owner, e))
           == UseFailure(t.document, u.0, u.1, u.0 in UnconditionalReferences(owner, e))
    {
      SameReferenceFailure(s, t, u.0, u.1);
    }
  }

  lemma SameBadColumnCells(s: Snapshot, t: Snapshot, owner: FieldRef, e: Expression)
    requires SameReads(s, t, owner, e)
    ensures BadColumnCells(s.document, e) == BadColumnCells(t.document, e)
  {
    TotalsAreColumns(e);
    forall k | k in TotalColumns(e)
      ensures FirstBadCell(s.document, ColumnCells(s.document, k)) == FirstBadCell(t.document, ColumnCells(t.document, k))
    {
      assert SameColumn(s, t, k);
      SameNonBlank(s, t, RowOrder(s.document, k.schema), k.field);
      SameFirstBadCell(s, t, ColumnCells(s.document, k));
    }
  }

  // A node's pregraph failure rests on its own cell and its declared reads.
  lemma SamePregraph(s: Snapshot, t: Snapshot, node: FieldRef)
    requires s.document.schemas == t.document.schemas && SameCell(s, t, node)
    requires IsFormula(s.document, node) ==> SameReads(s, t, node, FormulaAt(s.document, node))
    ensures PregraphFailure(s.document, node) == PregraphFailure(t.document, node)
  {
    if IsFormula(s.document, node) {
      SameShapeFailure(s.document, t.document, FormulaAt(s.document, node));
    }
    SameBadTargets(s, t, node);
    SameInvalidTargets(s, t, node);
  }

  lemma SameShapeFailure(a: Document, b: Document, e: Expression)
    requires a.schemas == b.schemas
    ensures FormulaShapeFailure(a, e) == FormulaShapeFailure(b, e)
  {
    SameColumnFailures(a, b, e);
  }

  lemma SameColumnFailures(a: Document, b: Document, e: Expression)
    requires a.schemas == b.schemas
    ensures ColumnFailures(a, e) == ColumnFailures(b, e)
  {
    forall k | k in Columns(e)
      ensures ColumnFailureOf(a, k, k in NumericColumns(e)) == ColumnFailureOf(b, k, k in NumericColumns(e))
    {
    }
  }

  lemma SameBadTargets(s: Snapshot, t: Snapshot, node: FieldRef)
    requires s.document.schemas == t.document.schemas && SameCell(s, t, node)
    requires IsFormula(s.document, node) ==> SameReads(s, t, node, FormulaAt(s.document, node))
    ensures BadTargets(s.document, node) == BadTargets(t.document, node)
  {
    SameReferenceFailure(s, t, node, true);
    if IsFormula(s.document, node) {
      SameBadUses(s, t, node, FormulaAt(s.document, node));
      SameBadColumnCells(s, t, node, FormulaAt(s.document, node));
    }
  }

  lemma SameInvalidTargets(s: Snapshot, t: Snapshot, node: FieldRef)
    requires s.document.schemas == t.document.schemas && SameCell(s, t, node)
    requires IsFormula(s.document, node) ==> SameReads(s, t, node, FormulaAt(s.document, node))
    ensures InvalidTargets(s.document, node) == InvalidTargets(t.document, node)
  {
    SameBadTargets(s, t, node);
    SameReferenceFailure(s, t, node, true);
    forall c | c in BadTargets(s.document, node)
      ensures ReferenceFailureOf(s.document, c, true) == ReferenceFailureOf(t.document, c, true)
    {
      if IsFormula(s.document, node) {
        BadTargetIsRead(s, t, node, c);
      }
    }
  }

  lemma BadTargetIsRead(s: Snapshot, t: Snapshot, node: FieldRef, c: FieldRef)
    requires s.document.schemas == t.document.schemas && SameCell(s, t, node)
    requires IsFormula(s.document, node) && SameReads(s, t, node, FormulaAt(s.document, node))
    requires c in BadTargets(s.document, node)
    ensures ReferenceFailureOf(s.document, c, true) == ReferenceFailureOf(t.document, c, true)
  {
    var e := FormulaAt(s.document, node);
    if c in BadUses(s.document, node, e) {
      UsesAreReferences(node, e, true);
    } else if c in BadColumnCells(s.document, e) {
      var k :| k in TotalColumns(e) && FirstBadCell(s.document, ColumnCells(s.document, k)) == Some(c);
      TotalsAreColumns(e);
      FirstBadCellIsBad(s.document, ColumnCells(s.document, k));
      assert SameColumn(s, t, k);
    }
    SameReferenceFailure(s, t, c, true);
  }

  // ---- Formulas that nothing fails early ----

  lemma TwoColumnsExist(document: Document, e: Expression, k: ColumnRef, l: ColumnRef)
    requires Columns(e) == {k, l} && NumericColumns(e) == {}
    requires ColumnFailureOf(document, k, false) == None && ColumnFailureOf(document, l, false) == None
    ensures ColumnFailures(document, e) == map[]
  {
  }

  lemma NoColumns(document: Document, e: Expression)
    requires Columns(e) == {}
    ensures ColumnFailures(document, e) == map[]
  {
  }

  lemma ShapeIsRight(document: Document, e: Expression)
    requires StructureError(e) == None && TypeOf(e) == Some(NumberResult) && ColumnFailures(document, e) == map[]
    ensures FormulaShapeFailure(document, e) == None
  {
  }

  lemma NoTargetsNoFailure(document: Document, c: FieldRef)
    requires ReferenceFailureOf(document, c, true) == None
    requires IsFormula(document, c) ==> var e := FormulaAt(document, c);
      && FormulaShapeFailure(document, e) == None && TotalColumns(e) == {}
      && forall u :: u in ReferenceUses(c, e, true) ==> ReferenceFailureOf(document, u.0, u.1) == None
    ensures PregraphFailure(document, c) == None
  {
    assert BadTargets(document, c) == {};
  }
}
