/**
 Which formulas are typed, said by the forms their places hold, and what a type
 means to the evaluator.
 */
module Typing {
  import opened Model
  import opened Expressions
  import opened Criteria
  import opened Ordered
  import opened Evaluator
  import opened Meaning
  import opened Chains

  predicate IsNumberForm(e: Expression) {
    || e.Literal? || e.Reference? || e.SameRow? || e.ColumnTotal? || e.ColumnAggregate? || e.ColumnConditional?
    || e.Binary? || e.If? || e.Round?
  }

  predicate IsConditionForm(e: Expression) {
    e.Compare? || e.Logical? || e.Not? || e.IsBlank?
  }

  // Every place of the node that needs a number holds a number form and every
  // place that needs a condition a condition form.
  predicate IsWellPlaced(e: Expression) {
    match e
    case ColumnConditional(_, criteria) =>
      forall i :: 0 <= i < |criteria| && criteria[i].operand.Some? ==> IsNumberForm(criteria[i].operand.value)
    case Binary(_, left, right) => IsNumberForm(left) && IsNumberForm(right)
    case Compare(_, left, right) => IsNumberForm(left) && IsNumberForm(right)
    case If(condition, thenValue, elseValue) => IsConditionForm(condition) && IsNumberForm(thenValue) && IsNumberForm(elseValue)
    case Logical(_, arguments) => arguments != [] && forall i :: 0 <= i < |arguments| ==> IsConditionForm(arguments[i])
    case Not(operand) => IsConditionForm(operand)
    case Round(operand, digits) => digits <= 10 && IsNumberForm(operand)
    case IsBlank(operand) => operand.Reference? || operand.SameRow?
    case _ => true
  }

  // The node is the formula or below it.
  ghost predicate IsWithin(e: Expression, node: Expression) {
    exists chain :: IsChain(AnyStep, e, chain) && chain[|chain| - 1] == node
  }

  lemma TypeIsForm(e: Expression)
    requires TypeOf(e).Some?
    ensures TypeOf(e) == Some(NumberResult) <==> IsNumberForm(e)
    ensures TypeOf(e) == Some(ConditionResult) <==> IsConditionForm(e)
  {
  }

  lemma ChildrenAre(e: Expression)
    ensures e.Logical? ==> Children(e) == e.arguments
    ensures e.ColumnConditional? ==> Children(e) == Operands(e.criteria)
  {
  }

  // A node is typed when it is well placed and its children are typed.
  lemma TypeStep(e: Expression)
    ensures TypeOf(e).None? <==> !IsWellPlaced(e) || exists c :: c in Children(e) && TypeOf(c).None?
  {
    forall c | c in Children(e) && TypeOf(c).Some?
      ensures (TypeOf(c) == Some(NumberResult) <==> IsNumberForm(c)) && (TypeOf(c) == Some(ConditionResult) <==> IsConditionForm(c))
    {
      TypeIsForm(c);
    }
    match e
    case ColumnConditional(_, criteria) => ConditionalIsTyped(e);
    case Logical(_, arguments) => LogicalIsTyped(e);
    case Binary(_, left, right) => assert left in Children(e) && right in Children(e);
    case Compare(_, left, right) => assert left in Children(e) && right in Children(e);
    case If(condition, thenValue, elseValue) =>
      assert condition in Children(e) && thenValue in Children(e) && elseValue in Children(e);
    case Not(operand) => assert operand in Children(e);
    case Round(operand, _) => assert operand in Children(e);
    case IsBlank(operand) => assert operand in Children(e);
    case _ =>
  }

  lemma ConditionalIsTyped(e: Expression)
    requires e.ColumnConditional?
    ensures TypeOf(e).None? <==> !IsWellPlaced(e) || exists c :: c in Children(e) && TypeOf(c).None?
  {
    var operands := Operands(e.criteria);
    forall c | c in operands && TypeOf(c).Some? ensures TypeOf(c) == Some(NumberResult) <==> IsNumberForm(c) {
      TypeIsForm(c);
    }
    forall i | 0 <= i < |e.criteria| && e.criteria[i].operand.Some? ensures e.criteria[i].operand.value in operands {
    }
  }

  lemma LogicalIsTyped(e: Expression)
    requires e.Logical?
    ensures TypeOf(e).None? <==> !IsWellPlaced(e) || exists c :: c in Children(e) && TypeOf(c).None?
  {
    forall c | c in e.arguments && TypeOf(c).Some? ensures TypeOf(c) == Some(ConditionResult) <==> IsConditionForm(c) {
      TypeIsForm(c);
    }
    forall i | 0 <= i < |e.arguments| ensures e.arguments[i] in Children(e) {
    }
  }

  // A formula is typed just when all its nodes are well placed, and then its
  // type is that of its form.
  lemma TypedMeans(e: Expression)
    ensures TypeOf(e).Some? <==> forall node :: IsWithin(e, node) ==> IsWellPlaced(node)
    ensures TypeOf(e) == Some(NumberResult) <==> IsNumberForm(e) && forall node :: IsWithin(e, node) ==> IsWellPlaced(node)
    ensures TypeOf(e) == Some(ConditionResult) <==> IsConditionForm(e) && forall node :: IsWithin(e, node) ==> IsWellPlaced(node)
  {
    var ends, has := (n: Expression) => !IsWellPlaced(n), (n: Expression) => TypeOf(n).None?;
    forall a ensures has(a) <==> ends(a) || exists c :: c in Children(a) && AnyStep(a, c) && has(c) {
      TypeStep(a);
      if exists c :: c in Children(a) && TypeOf(c).None? {
        var c :| c in Children(a) && TypeOf(c).None?;
        assert has(c);
      }
    }
    ChainsDecide(AnyStep, ends, has, e);
    if LeadsTo(AnyStep, e, ends) {
      var chain :| IsChain(AnyStep, e, chain) && ends(chain[|chain| - 1]);
      assert IsWithin(e, chain[|chain| - 1]);
    }
    if TypeOf(e).Some? { TypeIsForm(e); }
  }

  // ---- What a type means ----

  // A typed formula is evaluated as what its type says, and as nothing else.
  lemma TypesAreApart(rules: Rules, s: Snapshot, owner: FieldRef, e: Expression)
    ensures TypeOf(e) == Some(NumberResult) ==> ConditionOf(rules, s, owner, e) == Err(TypeMismatch)
    ensures TypeOf(e) == Some(ConditionResult) ==> NumberOf(rules, s, owner, e) == Err(TypeMismatch)
  {
  }

  // The formula is typed and its evaluation, as what its type says, ends in a
  // type mismatch.
  predicate Mismatches(rules: Rules, s: Snapshot, owner: FieldRef, e: Expression) {
    || (TypeOf(e) == Some(NumberResult) && NumberOf(rules, s, owner, e) == Err(TypeMismatch))
    || (TypeOf(e) == Some(ConditionResult) && ConditionOf(rules, s, owner, e) == Err(TypeMismatch))
  }

  // The child a mismatch comes from.
  lemma MismatchIsBelow(rules: Rules, s: Snapshot, owner: FieldRef, e: Expression) returns (c: Expression)
    requires Mismatches(rules, s, owner, e) && !e.ColumnConditional?
    ensures c in Children(e) && Mismatches(rules, s, owner, c)
  {
    match e
    case Binary(_, left, right) =>
      c := if NumberOf(rules, s, owner, left).Err? then left else right;
      assert c in Children(e);
    case Compare(_, left, right) =>
      c := if NumberOf(rules, s, owner, left).Err? then left else right;
      assert c in Children(e);
    case If(condition, thenValue, elseValue) =>
      var holds := ConditionOf(rules, s, owner, condition);
      c := if holds.Err? then condition else if holds.value then thenValue else elseValue;
      assert c in Children(e);
    case Logical(connective, arguments) =>
      c := MismatchedArgument(rules, s, owner, e);
    case Not(operand) => c := operand;
      assert c in Children(e);
    case Round(operand, _) => c := operand;
      assert c in Children(e);
    case _ =>
      LeavesNeverMismatch(rules, s, owner, e);
      c := e;
  }

  lemma MismatchedArgument(rules: Rules, s: Snapshot, owner: FieldRef, e: Expression) returns (c: Expression)
    requires Mismatches(rules, s, owner, e) && e.Logical?
    ensures c in Children(e) && Mismatches(rules, s, owner, c)
  {
    ConnectiveMeans(rules, s, owner, e.connective, e.arguments, e.connective.And?, e);
    var i :| 0 <= i < |e.arguments| && ConditionOf(rules, s, owner, e.arguments[i]) == Err(TypeMismatch);
    c := e.arguments[i];
    assert AllHaveType(e.arguments, ConditionResult, e) && c in e.arguments;
  }

  lemma LeavesNeverMismatch(rules: Rules, s: Snapshot, owner: FieldRef, e: Expression)
    requires e.Literal? || IsCellReference(e) || e.ColumnTotal? || e.ColumnAggregate? || e.IsBlank?
    ensures !Mismatches(rules, s, owner, e)
  {
  }

  // A typed formula goes wrong only where a conditional aggregate does: a
  // criterion cell may hold a text that is no criterion, or a reference.
  lemma {:induction false} TypedGoesWrongInConditionals(rules: Rules, s: Snapshot, owner: FieldRef, e: Expression)
    requires Mismatches(rules, s, owner, e)
    ensures LeadsTo(AnyStep, e, (n: Expression) => n.ColumnConditional? && NumberOf(rules, s, owner, n) == Err(TypeMismatch))
  {
    var ends := (n: Expression) => n.ColumnConditional? && NumberOf(rules, s, owner, n) == Err(TypeMismatch);
    if e.ColumnConditional? {
      assert IsChain(AnyStep, e, [e]) && ends([e][0]);
    } else {
      var c := MismatchIsBelow(rules, s, owner, e);
      TypedGoesWrongInConditionals(rules, s, owner, c);
      ChainDown(AnyStep, e, c, ends);
    }
  }
}
