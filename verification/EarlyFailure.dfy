/**
 The failures decided before any evaluation, as a table over the document
 itself: which limit, column or target fails a formula, and with which kind.
 */
module EarlyFailures {
  import opened Model
  import opened Expressions
  import opened Evaluator
  import opened Meaning
  import opened Operations
  import opened Chains
  import opened Typing
  import opened Pregraph
  import Binding
  import Projection

  // ---- Structure ----

  // The i-th node in pre-order, with `nodes` before the first, is the first
  // that is too deep or one too many.
  ghost predicate BreachesAt(depths: seq<nat>, nodes: nat, i: nat, error: ComplexityError) {
    && i < |depths| && (forall j :: 0 <= j < i ==> depths[j] <= MAX_DEPTH) && nodes + i <= MAX_NODES
    && if depths[i] > MAX_DEPTH then error == DepthLimit else nodes + i == MAX_NODES && error == NodeLimit
  }

  lemma {:induction false} FirstBreachMeans(depths: seq<nat>, nodes: nat, error: ComplexityError)
    requires nodes <= MAX_NODES
    ensures FirstBreach(depths, nodes) == Some(error) <==> exists i: nat :: BreachesAt(depths, nodes, i, error)
  {
    if depths != [] {
      if depths[0] > MAX_DEPTH || nodes == MAX_NODES {
        assert BreachesAt(depths, nodes, 0, if depths[0] > MAX_DEPTH then DepthLimit else NodeLimit);
      } else {
        FirstBreachMeans(depths[1..], nodes + 1, error);
        if FirstBreach(depths, nodes) == Some(error) {
          var i: nat :| BreachesAt(depths[1..], nodes + 1, i, error);
          forall j | 0 <= j < i + 1 ensures depths[j] <= MAX_DEPTH { if j > 0 { assert depths[j] == depths[1..][j - 1]; } }
          assert BreachesAt(depths, nodes, i + 1, error);
        }
        if exists i: nat :: BreachesAt(depths, nodes, i, error) {
          var i: nat :| BreachesAt(depths, nodes, i, error);
          assert i > 0 && depths[1..][i - 1] == depths[i];
          forall j | 0 <= j < i - 1 ensures depths[1..][j] <= MAX_DEPTH { assert depths[1..][j] == depths[j + 1]; }
          assert BreachesAt(depths[1..], nodes + 1, i - 1, error);
        }
      }
    }
  }

  ghost predicate HasChain(e: Expression, length: int) {
    exists chain :: IsChain(AnyStep, e, chain) && |chain| == length
  }

  lemma ChainsGoDown(e: Expression, length: int)
    ensures HasChain(e, length) <==> length == 1 || exists c :: c in Children(e) && HasChain(c, length - 1)
  {
    assert IsChain(AnyStep, e, [e]) && |[e]| == 1;
    if HasChain(e, length) && length != 1 {
      var chain :| IsChain(AnyStep, e, chain) && |chain| == length;
      ChainRest(AnyStep, e, chain);
      assert |chain[1..]| == length - 1;
    }
    if exists c :: c in Children(e) && HasChain(c, length - 1) {
      var c :| c in Children(e) && HasChain(c, length - 1);
      var rest :| IsChain(AnyStep, c, rest) && |rest| == length - 1;
      LongerChain(e, rest);
      assert |[e] + rest| == length;
    }
  }

  // A formula has a node at a depth just when a chain of that many nodes leads
  // down to one.
  lemma {:induction false} DepthsAreChains(e: Expression, depth: nat, m: nat)
    ensures m in Depths(e, depth) <==> HasChain(e, m + 1 - depth)
    decreases e, 1
  {
    ChainsGoDown(e, m + 1 - depth);
    ChildDepthsAreChains(Children(e), depth + 1, e, m);
  }

  lemma {:induction false} ChildDepthsAreChains(children: seq<Expression>, depth: nat, parent: Expression, m: nat)
    requires forall c :: c in children ==> c < parent
    ensures m in ChildDepths(children, depth, parent) <==> exists c :: c in children && HasChain(c, m + 1 - depth)
    decreases parent, 0, |children|
  {
    if children != [] {
      assert children == [children[0]] + children[1..] && children[0] in children;
      assert forall c :: c in children[1..] ==> c in children;
      DepthsAreChains(children[0], depth, m);
      ChildDepthsAreChains(children[1..], depth, parent, m);
    }
  }

  // ---- Columns ----

  // A column fails a formula that reads it when its schema or field is missing,
  // when it holds references, or when it holds no numbers and is read as one
  // that does.
  ghost predicate ColumnFails(document: Document, e: Expression, k: ColumnRef, failure: ColumnFailure) {
    && LeadsTo(AnyStep, e, (n: Expression) => Computes(n, k) || Tests(n, k))
    && match SchemaOf(document, k.schema)
       case None => failure == MissingSchema
       case Some(schema) =>
         if k.field !in schema.fields then failure == MissingField
         else
           && failure == NonNumericColumn
           && match schema.fields[k.field].fieldType
              case NumberType => false
              case ReferenceType(_) => true
              case _ => LeadsTo(AnyStep, e, (n: Expression) => Computes(n, k))
  }

  lemma ColumnFailuresMean(document: Document, e: Expression, k: ColumnRef, failure: ColumnFailure)
    ensures ColumnFails(document, e, k, failure) <==> k in ColumnFailures(document, e) && ColumnFailures(document, e)[k] == failure
  {
    ColumnsMean(e, k);
    NumericColumnsMean(e, k);
  }

  // ---- Targets ----

  // A target without a row or a field is missing. A target read as a number must
  // be a number field, and one always read must not hold anything else, nor be
  // empty when it is required.
  ghost predicate TargetFails(document: Document, cell: FieldRef, numeric: bool, always: bool, failure: ReferenceFailure) {
    match DefinitionOf(document, cell)
    case None => failure == Missing
    case Some(definition) =>
      && numeric
      && if definition.fieldType != NumberType then failure == NonNumeric
         else always && match Stored(document, cell)
           case None => definition.required && failure == Missing
           case Some(NumberValue(_)) => false
           case Some(FormulaValue(_)) => false
           case Some(_) => failure == NonNumeric
  }

  lemma TargetFailsMeans(document: Document, cell: FieldRef, numeric: bool, always: bool, failure: ReferenceFailure)
    ensures TargetFails(document, cell, numeric, always, failure) <==> UseFailure(document, cell, numeric, always) == Some(failure)
  {
  }

  ghost predicate CellFails(document: Document, cell: FieldRef) {
    exists failure :: TargetFails(document, cell, true, true, failure)
  }

  // The first cell, in entity order, of a column the formula sums.
  ghost predicate SumFails(document: Document, e: Expression, cell: FieldRef) {
    exists k :: LeadsTo(AnyStep, e, (n: Expression) => n == ColumnTotal(k)) && IsFirstBad(document, k, cell)
  }

  ghost predicate IsFirstBad(document: Document, k: ColumnRef, cell: FieldRef) {
    IsFirst(ColumnCells(document, k), (c: FieldRef) => CellFails(document, c), Some(cell))
  }

  // A target the formula names, by the chains that lead to it.
  ghost predicate UseFails(document: Document, owner: FieldRef, e: Expression, cell: FieldRef, failure: ReferenceFailure) {
    exists numeric, chain ::
      && UsedBy(owner, e, cell, numeric, chain)
      && TargetFails(document, cell, numeric, LeadsTo(AlwaysTaken, e, (n: Expression) => Names(owner, n, cell)), failure)
  }

  // The node's own cell, a cell its formula names, or a cell its formula sums.
  ghost predicate FailsTarget(document: Document, node: FieldRef, cell: FieldRef, failure: ReferenceFailure) {
    || (cell == node && TargetFails(document, node, true, true, failure))
    || (&& IsFormula(document, node)
        && (|| UseFails(document, node, FormulaAt(document, node), cell, failure)
            || (SumFails(document, FormulaAt(document, node), cell) && TargetFails(document, cell, true, true, failure))))
  }

  lemma CellFailsMeans(document: Document, cell: FieldRef)
    ensures CellFails(document, cell) <==> ReferenceFailureOf(document, cell, true).Some?
    ensures forall failure :: TargetFails(document, cell, true, true, failure) <==> ReferenceFailureOf(document, cell, true) == Some(failure)
  {
    forall failure ensures TargetFails(document, cell, true, true, failure) <==> ReferenceFailureOf(document, cell, true) == Some(failure) {
      TargetFailsMeans(document, cell, true, true, failure);
    }
    if ReferenceFailureOf(document, cell, true).Some? {
      assert TargetFails(document, cell, true, true, ReferenceFailureOf(document, cell, true).value);
    }
  }

  lemma {:induction false} FirstBadCellMeans(document: Document, cells: seq<FieldRef>)
    ensures IsFirst(cells, (c: FieldRef) => CellFails(document, c), FirstBadCell(document, cells))
  {
    if cells != [] {
      var has := (c: FieldRef) => CellFails(document, c);
      CellFailsMeans(document, cells[0]);
      if has(cells[0]) {
        FirstHere(cells, has);
      } else {
        FirstBadCellMeans(document, cells[1..]);
        FirstLater(cells, has, FirstBadCell(document, cells));
      }
    }
  }

  lemma FirstBadMeans(document: Document, k: ColumnRef, cell: FieldRef)
    ensures IsFirstBad(document, k, cell) <==> FirstBadCell(document, ColumnCells(document, k)) == Some(cell)
  {
    var cells, has := ColumnCells(document, k), (c: FieldRef) => CellFails(document, c);
    FirstBadCellMeans(document, cells);
    if IsFirstBad(document, k, cell) {
      FirstIsUnique(cells, has, Some(cell), FirstBadCell(document, cells));
    }
  }

  lemma SumFailsMeans(document: Document, e: Expression, cell: FieldRef)
    ensures SumFails(document, e, cell) <==> cell in BadColumnCells(document, e)
  {
    forall k ensures
      LeadsTo(AnyStep, e, (n: Expression) => n == ColumnTotal(k)) && IsFirstBad(document, k, cell)
      <==> k in TotalColumns(e) && FirstBadCell(document, ColumnCells(document, k)) == Some(cell)
    {
      TotalColumnsMean(e, k);
      FirstBadMeans(document, k, cell);
    }
  }

  lemma UseFailsMeans(document: Document, owner: FieldRef, e: Expression, cell: FieldRef, failure: ReferenceFailure)
    ensures UseFails(document, owner, e, cell, failure) <==>
      exists numeric :: (cell, numeric) in ReferenceUses(owner, e, true)
        && UseFailure(document, cell, numeric, cell in UnconditionalReferences(owner, e)) == Some(failure)
  {
    var always := LeadsTo(AlwaysTaken, e, (n: Expression) => Names(owner, n, cell));
    UnconditionalMeans(owner, e, cell);
    forall numeric
      ensures (cell, numeric) in ReferenceUses(owner, e, true) <==> exists chain :: UsedBy(owner, e, cell, numeric, chain)
      ensures TargetFails(document, cell, numeric, always, failure) <==> UseFailure(document, cell, numeric, always) == Some(failure)
    {
      UsesMean(owner, e, cell, numeric);
      TargetFailsMeans(document, cell, numeric, always, failure);
    }
  }

  lemma BadUseFails(document: Document, owner: FieldRef, e: Expression, cell: FieldRef, failure: ReferenceFailure)
    ensures UseFails(document, owner, e, cell, failure) <==>
      cell in BadUses(document, owner, e) && ReferenceFailureOf(document, cell, true) == Some(failure)
  {
    UseFailsMeans(document, owner, e, cell, failure);
    forall numeric, always | UseFailure(document, cell, numeric, always).Some?
      ensures ReferenceFailureOf(document, cell, true) == UseFailure(document, cell, numeric, always)
    {
      UseFailureIsNumericFailure(document, cell, numeric, always);
    }
  }

  // The invalid targets of a node and their kinds.
  lemma InvalidTargetsMean(document: Document, node: FieldRef, cell: FieldRef, failure: ReferenceFailure)
    ensures FailsTarget(document, node, cell, failure) <==>
      cell in InvalidTargets(document, node) && InvalidTargets(document, node)[cell] == failure
  {
    CellFailsMeans(document, cell);
    BadTargetsAreBad(document, node);
    if IsFormula(document, node) {
      SumFailsMeans(document, FormulaAt(document, node), cell);
      BadUseFails(document, node, FormulaAt(document, node), cell, failure);
    }
  }

  // ---- Early failures ----

  predicate Maps<K, V(==)>(m: map<K, V>, k: K, v: V) {
    k in m && m[k] == v
  }

  ghost predicate BreaksLimits(e: Expression, error: ComplexityError) {
    exists i: nat :: BreachesAt(Depths(e, 1), 0, i, error)
  }

  ghost predicate IsTypedNumber(e: Expression) {
    IsNumberForm(e) && forall node :: IsWithin(e, node) ==> IsWellPlaced(node)
  }

  ghost predicate IsShaped(e: Expression) {
    (forall error :: !BreaksLimits(e, error)) && IsTypedNumber(e)
  }

  // A formula over a limit fails for the limit, an ill-typed one as a mismatch,
  // one with failing columns for all of them; any other node fails for all its
  // failing targets.
  ghost predicate FailsEarly(document: Document, node: FieldRef, failure: CalculationFailure) {
    match failure
    case InvalidExpression(error) => IsFormula(document, node) && BreaksLimits(FormulaAt(document, node), error)
    case TypeMismatch =>
      && IsFormula(document, node) && !IsTypedNumber(FormulaAt(document, node))
      && forall error :: !BreaksLimits(FormulaAt(document, node), error)
    case InvalidColumn(columns) =>
      && IsFormula(document, node) && IsShaped(FormulaAt(document, node)) && columns != map[]
      && forall k, f :: Maps(columns, k, f) <==> ColumnFails(document, FormulaAt(document, node), k, f)
    case InvalidReferences(targets) =>
      && (IsFormula(document, node) ==> IsShaped(FormulaAt(document, node)) && NoColumnFails(document, FormulaAt(document, node)))
      && targets != map[]
      && forall cell, f :: Maps(targets, cell, f) <==> FailsTarget(document, node, cell, f)
    case _ => false
  }

  ghost predicate NoColumnFails(document: Document, e: Expression) {
    forall k, f :: !ColumnFails(document, e, k, f)
  }

  lemma LimitsMean(e: Expression, error: ComplexityError)
    ensures BreaksLimits(e, error) <==> StructureError(e) == Some(error)
  {
    FirstBreachMeans(Depths(e, 1), 0, error);
  }

  lemma ShapeMeans(e: Expression)
    ensures IsTypedNumber(e) <==> TypeOf(e) == Some(NumberResult)
    ensures forall error :: BreaksLimits(e, error) <==> StructureError(e) == Some(error)
    ensures IsShaped(e) <==> StructureError(e) == None && TypeOf(e) == Some(NumberResult)
  {
    TypedMeans(e);
    forall error ensures BreaksLimits(e, error) <==> StructureError(e) == Some(error) {
      LimitsMean(e, error);
    }
  }

  // A map is determined by its entries.
  lemma SameEntries<K, V>(m: map<K, V>, n: map<K, V>)
    requires forall k, v :: Maps(m, k, v) <==> Maps(n, k, v)
    ensures m == n
  {
    forall k ensures k in m <==> k in n {
      assert k in m ==> Maps(m, k, m[k]);
      assert k in n ==> Maps(n, k, n[k]);
    }
    forall k | k in m && k in n ensures m[k] == n[k] {
      assert Maps(m, k, m[k]);
    }
  }

  lemma ColumnsFail(document: Document, e: Expression, columns: map<ColumnRef, ColumnFailure>)
    ensures NoColumnFails(document, e) <==> ColumnFailures(document, e) == map[]
    ensures columns == ColumnFailures(document, e) <==>
      forall k, f :: Maps(columns, k, f) <==> ColumnFails(document, e, k, f)
  {
    forall k, f ensures ColumnFails(document, e, k, f) <==> Maps(ColumnFailures(document, e), k, f) {
      ColumnFailuresMean(document, e, k, f);
    }
    if ColumnFailures(document, e) != map[] {
      var k :| k in ColumnFailures(document, e);
      assert ColumnFails(document, e, k, ColumnFailures(document, e)[k]);
    }
    if forall k, f :: Maps(columns, k, f) <==> ColumnFails(document, e, k, f) {
      SameEntries(columns, ColumnFailures(document, e));
    }
  }

  lemma TargetsFail(document: Document, node: FieldRef, targets: map<FieldRef, ReferenceFailure>)
    ensures targets == InvalidTargets(document, node) <==>
      forall cell, f :: Maps(targets, cell, f) <==> FailsTarget(document, node, cell, f)
  {
    forall cell, f ensures FailsTarget(document, node, cell, f) <==> Maps(InvalidTargets(document, node), cell, f) {
      InvalidTargetsMean(document, node, cell, f);
    }
    if forall cell, f :: Maps(targets, cell, f) <==> FailsTarget(document, node, cell, f) {
      SameEntries(targets, InvalidTargets(document, node));
    }
  }

  lemma ShapeFailuresMean(document: Document, node: FieldRef, failure: CalculationFailure)
    requires IsFormula(document, node)
    ensures FormulaShapeFailure(document, FormulaAt(document, node)) == Some(failure) <==>
      FailsEarly(document, node, failure) && !failure.InvalidReferences?
  {
    var e := FormulaAt(document, node);
    ShapeMeans(e);
    if failure.InvalidColumn? { ColumnsFail(document, e, failure.columns); }
  }

  lemma ShapeIsRightMeans(document: Document, e: Expression)
    ensures FormulaShapeFailure(document, e) == None <==> IsShaped(e) && NoColumnFails(document, e)
  {
    ShapeMeans(e);
    ColumnsFail(document, e, map[]);
  }

  // The early failures are exactly those of the table.
  lemma EarlyFailuresMean(document: Document, nodes: set<FieldRef>, node: FieldRef, failure: CalculationFailure)
    ensures Maps(PregraphMap(document, nodes), node, failure) <==> node in nodes && FailsEarly(document, node, failure)
  {
    if IsFormula(document, node) {
      ShapeFailuresMean(document, node, failure);
      ShapeIsRightMeans(document, FormulaAt(document, node));
    }
    assert InvalidTargets(document, node).Keys == BadTargets(document, node);
    if failure.InvalidReferences? { TargetsFail(document, node, failure.targets); }
  }

  // ---- Projection and binding ----

  // The columns a projection cannot name are those the formula fails for.
  lemma UnnameableColumnsFail(document: Document, e: Expression, k: ColumnRef)
    ensures k in Projection.UnnameableColumns(document, e) <==> exists failure :: ColumnFails(document, e, k, failure)
  {
    forall failure ensures ColumnFails(document, e, k, failure) <==> Maps(ColumnFailures(document, e), k, failure) {
      ColumnFailuresMean(document, e, k, failure);
    }
    if k in ColumnFailures(document, e) { assert ColumnFails(document, e, k, ColumnFailures(document, e)[k]); }
    NameableMeans(document, k, k in NumericColumns(e));
  }

  lemma NameableMeans(document: Document, k: ColumnRef, numeric: bool)
    ensures Projection.Nameable(document, k, numeric) <==> ColumnFailureOf(document, k, numeric) == None
  {
  }

  // The references it cannot name are those the document does not define.
  lemma MissingReferencesFail(document: Document, owner: FieldRef, e: Expression, cell: FieldRef)
    ensures cell in Projection.MissingAmong(document, DirectReferences(owner, e)) <==>
      LeadsTo(AnyStep, e, (n: Expression) => Names(owner, n, cell)) && DefinitionOf(document, cell) == None
  {
    DirectMeans(owner, e, cell);
  }

  // A typed formula within the limits that binding can produce fails early for
  // its targets only.
  lemma AuthoredFailsForTargetsOnly(document: Document, node: FieldRef, failure: CalculationFailure)
    requires IsFormula(document, node) && Projection.Authored(document, node, FormulaAt(document, node), Projection.NumericRole)
    requires TypeOf(FormulaAt(document, node)) == Some(NumberResult) && StructureError(FormulaAt(document, node)) == None
    requires FailsEarly(document, node, failure)
    ensures failure.InvalidReferences?
  {
    var e := FormulaAt(document, node);
    ShapeMeans(e);
    Projection.AuthoredColumnsAreNameable(document, node, e, Projection.NumericRole);
    if failure.InvalidColumn? {
      var k :| k in failure.columns;
      assert Maps(failure.columns, k, failure.columns[k]);
      UnnameableColumnsFail(document, e, k);
      assert false;
    }
  }
}
