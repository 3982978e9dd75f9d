/**
 The static walks over a formula, said as ways down it: what a walk collects is
 what some chain of children leads to.
 */
module Chains {
  import opened Model
  import opened Expressions
  import opened Ordered
  import opened Evaluator
  import opened Meaning

  // A way down from a formula by the given steps, each to a child.
  ghost predicate IsChain(step: (Expression, Expression) -> bool, e: Expression, chain: seq<Expression>) {
    && chain != [] && chain[0] == e
    && forall i, j :: 0 <= i && j == i + 1 && j < |chain| ==> chain[j] in Children(chain[i]) && step(chain[i], chain[j])
  }

  ghost predicate LeadsTo(step: (Expression, Expression) -> bool, e: Expression, ends: Expression -> bool) {
    exists chain :: IsChain(step, e, chain) && ends(chain[|chain| - 1])
  }

  lemma ChainDown(step: (Expression, Expression) -> bool, e: Expression, c: Expression, ends: Expression -> bool)
    requires c in Children(e) && step(e, c) && LeadsTo(step, c, ends)
    ensures LeadsTo(step, e, ends)
  {
    var chain :| IsChain(step, c, chain) && ends(chain[|chain| - 1]);
    var longer := [e] + chain;
    forall i, j | 0 <= i && j == i + 1 && j < |longer|
      ensures longer[j] in Children(longer[i]) && step(longer[i], longer[j])
    {
      if i > 0 { assert longer[i] == chain[i - 1] && longer[j] == chain[j - 1]; }
    }
    assert IsChain(step, e, longer) && longer[|longer| - 1] == chain[|chain| - 1];
  }

  lemma ChainRest(step: (Expression, Expression) -> bool, e: Expression, chain: seq<Expression>)
    requires IsChain(step, e, chain) && |chain| > 1
    ensures chain[1] in Children(e) && step(e, chain[1]) && IsChain(step, chain[1], chain[1..])
  {
    forall i, j | 0 <= i && j == i + 1 && j < |chain[1..]|
      ensures chain[1..][j] in Children(chain[1..][i]) && step(chain[1..][i], chain[1..][j])
    {
      assert chain[1..][i] == chain[i + 1] && chain[1..][j] == chain[j + 1];
    }
  }

  // A property a node has of its own, or from a child a step leads to, is had
  // just where some chain leads to a node that has it of its own.
  lemma {:induction false} ChainsDecide(
    step: (Expression, Expression) -> bool, ends: Expression -> bool, has: Expression -> bool, e: Expression
  )
    requires forall a :: has(a) <==> ends(a) || exists c :: c in Children(a) && step(a, c) && has(c)
    ensures has(e) <==> LeadsTo(step, e, ends)
  {
    if has(e) {
      if ends(e) {
        assert IsChain(step, e, [e]);
      } else {
        var c :| c in Children(e) && step(e, c) && has(c);
        ChainsDecide(step, ends, has, c);
        ChainDown(step, e, c, ends);
      }
    }
    if LeadsTo(step, e, ends) {
      var chain :| IsChain(step, e, chain) && ends(chain[|chain| - 1]);
      ChainEnds(step, ends, has, e, chain);
    }
  }

  lemma {:induction false} ChainEnds(
    step: (Expression, Expression) -> bool, ends: Expression -> bool, has: Expression -> bool, e: Expression, chain: seq<Expression>
  )
    requires forall a :: has(a) <==> ends(a) || exists c :: c in Children(a) && step(a, c) && has(c)
    requires IsChain(step, e, chain) && ends(chain[|chain| - 1])
    ensures has(e)
    decreases |chain|
  {
    if |chain| > 1 {
      ChainRest(step, e, chain);
      ChainEnds(step, ends, has, chain[1], chain[1..]);
    }
  }

  // ---- References ----

  // The node is a reference to the cell.
  predicate Names(owner: FieldRef, node: Expression, cell: FieldRef) {
    node == Reference(cell) || (node == SameRow(cell.field) && cell.entity == owner.entity)
  }

  const AnyStep := (a: Expression, b: Expression) => true

  // Not into an ISBLANK, and out of an IF to its condition only.
  const AlwaysTaken := (a: Expression, b: Expression) => !a.IsBlank? && (a.If? ==> b == a.condition)

  lemma DirectMeans(owner: FieldRef, e: Expression, cell: FieldRef)
    ensures cell in DirectReferences(owner, e) <==> LeadsTo(AnyStep, e, (n: Expression) => Names(owner, n, cell))
  {
    ChainsDecide(AnyStep, (n: Expression) => Names(owner, n, cell), (n: Expression) => cell in DirectReferences(owner, n), e);
  }

  // A cell is read on every evaluation when a chain of children leads to a
  // reference to it that enters no ISBLANK and leaves each IF by its condition.
  lemma UnconditionalMeans(owner: FieldRef, e: Expression, cell: FieldRef)
    ensures cell in UnconditionalReferences(owner, e) <==> LeadsTo(AlwaysTaken, e, (n: Expression) => Names(owner, n, cell))
  {
    forall a: Expression | a.If? ensures a.condition in Children(a) {
    }
    ChainsDecide(AlwaysTaken, (n: Expression) => Names(owner, n, cell), (n: Expression) => cell in UnconditionalReferences(owner, n), e);
  }

  // ---- Columns ----

  // The node reads the column's cells as numbers.
  predicate Computes(node: Expression, column: ColumnRef) {
    match node
    case ColumnTotal(k) => k == column
    case ColumnAggregate(_, k) => k == column
    case ColumnConditional(SumOf(k), _) => k == column
    case ColumnConditional(AverageOf(k), _) => k == column
    case _ => false
  }

  predicate Tests(node: Expression, column: ColumnRef) {
    node.ColumnConditional? && exists i :: 0 <= i < |node.criteria| && node.criteria[i].column == column
  }

  lemma ColumnsMean(e: Expression, column: ColumnRef)
    ensures column in Columns(e) <==> LeadsTo(AnyStep, e, (n: Expression) => Computes(n, column) || Tests(n, column))
  {
    ChainsDecide(AnyStep, (n: Expression) => Computes(n, column) || Tests(n, column), (n: Expression) => column in Columns(n), e);
  }

  lemma NumericColumnsMean(e: Expression, column: ColumnRef)
    ensures column in NumericColumns(e) <==> LeadsTo(AnyStep, e, (n: Expression) => Computes(n, column))
  {
    ChainsDecide(AnyStep, (n: Expression) => Computes(n, column), (n: Expression) => column in NumericColumns(n), e);
  }

  lemma TotalColumnsMean(e: Expression, column: ColumnRef)
    ensures column in TotalColumns(e) <==> LeadsTo(AnyStep, e, (n: Expression) => n == ColumnTotal(column))
  {
    ChainsDecide(AnyStep, (n: Expression) => n == ColumnTotal(column), (n: Expression) => column in TotalColumns(n), e);
  }

  // ---- Which references must name a number ----

  // From its i-th node on the chain asks for no number: the node is an ISBLANK,
  // or a conditional whose criterion is the chain's last node.
  predicate Releases(chain: seq<Expression>, i: nat)
    requires i < |chain|
  {
    chain[i].IsBlank? || (chain[i].ColumnConditional? && i + 2 == |chain|)
  }

  predicate Settles(node: Expression) {
    node.IsBlank? || node.ColumnConditional?
  }

  ghost predicate ReleasedAt(chain: seq<Expression>, i: nat) {
    i + 1 < |chain| && Releases(chain, i) && forall j :: i < j && j + 1 < |chain| ==> !Settles(chain[j])
  }

  ghost predicate IsReleased(chain: seq<Expression>) {
    exists i: nat :: ReleasedAt(chain, i)
  }

  // A chain to a reference, with or without the demand for a number at its end.
  ghost predicate UsedBy(owner: FieldRef, e: Expression, cell: FieldRef, numeric: bool, chain: seq<Expression>) {
    IsChain(AnyStep, e, chain) && Names(owner, chain[|chain| - 1], cell) && numeric == !IsReleased(chain)
  }

  ghost predicate HasSettled(chain: seq<Expression>) {
    exists j :: 0 <= j && j + 1 < |chain| && Settles(chain[j])
  }

  // What the end of a chain is asked for when its start is asked for `numeric`.
  ghost predicate Asked(chain: seq<Expression>, numeric: bool) {
    !IsReleased(chain) && (numeric || HasSettled(chain))
  }

  lemma AskedStep(owner: FieldRef, e: Expression, rest: seq<Expression>, cell: FieldRef, numeric: bool)
    requires rest != [] && IsChain(AnyStep, rest[0], rest) && Names(owner, rest[|rest| - 1], cell)
    ensures Asked([e] + rest, numeric) <==> Asked(rest, ChildNumeric(e, rest[0], numeric))
  {
    var chain := [e] + rest;
    assert forall j :: 0 < j < |chain| ==> chain[j] == rest[j - 1];
    LaterSettles(e, rest);
    assert |rest| > 1 ==> rest[1] in Children(rest[0]);
  }

  // The nodes after the first settle what they settle without it; what the
  // first settles stands when none of them does.
  lemma LaterSettles(e: Expression, rest: seq<Expression>)
    requires rest != []
    ensures HasSettled([e] + rest) <==> Settles(e) || HasSettled(rest)
    ensures IsReleased([e] + rest) <==> IsReleased(rest) || (Releases([e] + rest, 0) && !HasSettled(rest))
  {
    SettledLater(e, rest);
    if IsReleased(rest) {
      var i: nat :| ReleasedAt(rest, i);
      ReleasedLater(e, rest, i);
    }
    if IsReleased([e] + rest) {
      var i: nat :| ReleasedAt([e] + rest, i);
      if i > 0 { ReleasedLater(e, rest, i - 1); } else { ReleasedFirst(e, rest); }
    }
    ReleasedFirst(e, rest);
  }

  lemma SettledLater(e: Expression, rest: seq<Expression>)
    requires rest != []
    ensures HasSettled([e] + rest) <==> Settles(e) || HasSettled(rest)
  {
    var chain := [e] + rest;
    assert chain[0] == e && forall j :: 0 <= j < |rest| ==> rest[j] == chain[j + 1];
    if HasSettled(rest) {
      var j :| 0 <= j && j + 1 < |rest| && Settles(rest[j]);
      assert Settles(chain[j + 1]);
    }
  }

  lemma ReleasedLater(e: Expression, rest: seq<Expression>, i: nat)
    ensures ReleasedAt([e] + rest, i + 1) <==> ReleasedAt(rest, i)
  {
    var chain := [e] + rest;
    assert forall j :: 0 <= j < |rest| ==> rest[j] == chain[j + 1];
    if ReleasedAt(chain, i + 1) {
      forall j | i < j && j + 1 < |rest| ensures !Settles(rest[j]) { assert !Settles(chain[j + 1]); }
    }
    if ReleasedAt(rest, i) {
      forall j | i + 1 < j && j + 1 < |chain| ensures !Settles(chain[j]) { assert !Settles(rest[j - 1]); }
    }
  }

  lemma ReleasedFirst(e: Expression, rest: seq<Expression>)
    requires rest != []
    ensures ReleasedAt([e] + rest, 0) <==> Releases([e] + rest, 0) && !HasSettled(rest)
  {
    var chain := [e] + rest;
    assert forall j :: 0 <= j < |rest| ==> rest[j] == chain[j + 1];
    if ReleasedAt(chain, 0) {
      forall j | 0 <= j && j + 1 < |rest| ensures !Settles(rest[j]) { assert !Settles(chain[j + 1]); }
    }
    if !HasSettled(rest) {
      forall j | 0 < j && j + 1 < |chain| ensures !Settles(chain[j]) { assert !Settles(rest[j - 1]); }
    }
  }

  lemma {:induction false} UseHasChain(owner: FieldRef, e: Expression, cell: FieldRef, numeric: bool, flag: bool)
      returns (chain: seq<Expression>)
    requires (cell, flag) in ReferenceUses(owner, e, numeric)
    ensures IsChain(AnyStep, e, chain) && Names(owner, chain[|chain| - 1], cell) && flag == Asked(chain, numeric)
  {
    if IsCellReference(e) {
      chain := [e];
    } else {
      var c :| c in Children(e) && (cell, flag) in ReferenceUses(owner, c, ChildNumeric(e, c, numeric));
      var rest := UseHasChain(owner, c, cell, ChildNumeric(e, c, numeric), flag);
      AskedStep(owner, e, rest, cell, numeric);
      LongerChain(e, rest);
      chain := [e] + rest;
    }
  }

  lemma LongerChain(e: Expression, rest: seq<Expression>)
    requires rest != [] && IsChain(AnyStep, rest[0], rest) && rest[0] in Children(e)
    ensures IsChain(AnyStep, e, [e] + rest)
  {
    var longer := [e] + rest;
    forall i, j | 0 <= i && j == i + 1 && j < |longer| ensures longer[j] in Children(longer[i]) {
      if i > 0 { assert longer[i] == rest[i - 1] && longer[j] == rest[j - 1]; }
    }
  }

  lemma {:induction false} ChainIsUse(owner: FieldRef, e: Expression, cell: FieldRef, numeric: bool, chain: seq<Expression>)
    requires IsChain(AnyStep, e, chain) && Names(owner, chain[|chain| - 1], cell)
    ensures (cell, Asked(chain, numeric)) in ReferenceUses(owner, e, numeric)
    decreases |chain|
  {
    if |chain| > 1 {
      ChainRest(AnyStep, e, chain);
      var rest := chain[1..];
      assert chain == [e] + rest;
      AskedStep(owner, e, rest, cell, numeric);
      ChainIsUse(owner, rest[0], cell, ChildNumeric(e, rest[0], numeric), rest);
      assert !IsCellReference(e);
    }
  }

  // A formula uses a cell, as a number or not, just where some chain does.
  lemma UsesMean(owner: FieldRef, e: Expression, cell: FieldRef, numeric: bool)
    ensures (cell, numeric) in ReferenceUses(owner, e, true) <==> exists chain :: UsedBy(owner, e, cell, numeric, chain)
  {
    if (cell, numeric) in ReferenceUses(owner, e, true) {
      var chain := UseHasChain(owner, e, cell, true, numeric);
      assert UsedBy(owner, e, cell, numeric, chain);
    }
    if exists chain :: UsedBy(owner, e, cell, numeric, chain) {
      var chain :| UsedBy(owner, e, cell, numeric, chain);
      ChainIsUse(owner, e, cell, true, chain);
    }
  }

  // ---- What an evaluation requires ----

  // The ways an evaluation takes: an IF's condition and the branch it selects.
  function Taken(rules: Rules, s: Snapshot, owner: FieldRef): (Expression, Expression) -> bool {
    (a: Expression, b: Expression) => !a.IsBlank?
      && (a.If? ==> b == a.condition || (b == a.thenValue && ConditionOf(rules, s, owner, a.condition) == Ok(true))
                    || (b == a.elseValue && ConditionOf(rules, s, owner, a.condition) == Ok(false)))
  }

  ghost predicate FailsOn(s: Snapshot, owner: FieldRef, node: Expression, cell: FieldRef) {
    || (Names(owner, node, cell) && cell in s.failures)
    || exists k :: (Computes(node, k) || Tests(node, k)) && IsFirstFailed(s, k, cell)
  }

  ghost predicate IsFirstFailed(s: Snapshot, column: ColumnRef, cell: FieldRef) {
    IsFirst(ColumnCells(s.document, column), (c: FieldRef) => c in s.failures, Some(cell))
  }

  lemma FirstFailedMeans(rules: Rules, s: Snapshot, column: ColumnRef, cell: FieldRef)
    ensures cell in FirstFailed(rules, s, column) <==> IsFirstFailed(s, column, cell)
  {
    ReadColumnMeans(rules, s, column);
    var cells, has := ColumnCells(s.document, column), (c: FieldRef) => c in s.failures;
    if IsFirstFailed(s, column, cell) {
      FirstIsUnique(cells, has, Some(cell), ReadColumn(rules, s, column).firstFailed);
    }
  }

  lemma OwnColumnsMean(a: Expression, k: ColumnRef)
    ensures k in OwnColumns(a) <==> Computes(a, k) || Tests(a, k)
  {
  }

  ghost predicate StepHolds(rules: Rules, s: Snapshot, owner: FieldRef, a: Expression, cell: FieldRef) {
    cell in FailedRequired(rules, s, owner, a) <==>
      FailsOn(s, owner, a, cell)
      || exists c :: c in Children(a) && Taken(rules, s, owner)(a, c) && cell in FailedRequired(rules, s, owner, c)
  }

  lemma RequiredOfIf(rules: Rules, s: Snapshot, owner: FieldRef, a: Expression, cell: FieldRef)
    requires a.If?
    ensures StepHolds(rules, s, owner, a, cell)
  {
    assert a.condition in Children(a) && a.thenValue in Children(a) && a.elseValue in Children(a);
  }

  lemma RequiredOfLeaf(rules: Rules, s: Snapshot, owner: FieldRef, a: Expression, cell: FieldRef)
    requires IsCellReference(a) || a.IsBlank?
    ensures StepHolds(rules, s, owner, a, cell)
  {
  }

  lemma RequiredOfOther(rules: Rules, s: Snapshot, owner: FieldRef, a: Expression, cell: FieldRef)
    requires !IsCellReference(a) && !a.IsBlank? && !a.If?
    ensures StepHolds(rules, s, owner, a, cell)
  {
    forall k ensures k in OwnColumns(a) && cell in FirstFailed(rules, s, k) <==> (Computes(a, k) || Tests(a, k)) && IsFirstFailed(s, k, cell) {
      OwnColumnsMean(a, k);
      FirstFailedMeans(rules, s, k, cell);
    }
    assert FailsOn(s, owner, a, cell) <==> exists k :: k in OwnColumns(a) && cell in FirstFailed(rules, s, k);
  }

  lemma RequiredStep(rules: Rules, s: Snapshot, owner: FieldRef, a: Expression, cell: FieldRef)
    ensures StepHolds(rules, s, owner, a, cell)
  {
    if a.If? {
      RequiredOfIf(rules, s, owner, a, cell);
    } else if IsCellReference(a) || a.IsBlank? {
      RequiredOfLeaf(rules, s, owner, a, cell);
    } else {
      RequiredOfOther(rules, s, owner, a, cell);
    }
  }

  // The ways an evaluation takes lead to a reference to the failed cell, or to
  // a column whose first failed cell it is.
  ghost predicate Requires(rules: Rules, s: Snapshot, owner: FieldRef, e: Expression, cell: FieldRef) {
    LeadsTo(Taken(rules, s, owner), e, (n: Expression) => FailsOn(s, owner, n, cell))
  }

  // The failed required references of a formula are the cells it requires so.
  lemma RequiredMeans(rules: Rules, s: Snapshot, owner: FieldRef, e: Expression, cell: FieldRef)
    ensures cell in FailedRequired(rules, s, owner, e) <==> Requires(rules, s, owner, e, cell)
  {
    forall a ensures cell in FailedRequired(rules, s, owner, a) <==>
      FailsOn(s, owner, a, cell)
      || exists c :: c in Children(a) && Taken(rules, s, owner)(a, c) && cell in FailedRequired(rules, s, owner, c)
    {
      RequiredStep(rules, s, owner, a, cell);
    }
    ChainsDecide(Taken(rules, s, owner), (n: Expression) => FailsOn(s, owner, n, cell),
                 (n: Expression) => cell in FailedRequired(rules, s, owner, n), e);
  }

  // A formula fails with all the failed cells it requires, and is evaluated when
  // it requires none.
  lemma OutcomeMeans(rules: Rules, s: Snapshot, owner: FieldRef, e: Expression)
    ensures var r := FormulaOutcome(rules, s, owner, e);
      || (&& r.Err? && r.failure.FailedDependencies? && r.failure.dependencies != {}
          && forall cell :: cell in r.failure.dependencies <==> Requires(rules, s, owner, e, cell))
      || (r == NumberOf(rules, s, owner, e) && forall cell :: !Requires(rules, s, owner, e, cell))
  {
    forall cell ensures cell in FailedRequired(rules, s, owner, e) <==> Requires(rules, s, owner, e, cell) {
      RequiredMeans(rules, s, owner, e, cell);
    }
  }
}
