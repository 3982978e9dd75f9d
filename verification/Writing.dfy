/**
 The texts a formula may be written as. A writing chooses, node by node, the
 case of function names, whether the parentheses that precedence makes
 redundant are left out, whether equality tests with a number are quoted, and
 whether a conditional takes its singular form. The canonical print is one
 writing.
 */
module Writings {
  import opened Model
  import opened Criteria
  import opened UnboundFormulas
  import opened ParserText

  // How one node is written: its function name, an infix operation without its
  // parentheses where its place allows that, equality tests quoted, and a
  // singular conditional's value column left out when it is the criterion's.
  datatype Manner = Manner(name: string, bare: bool, quotes: bool, omits: bool)

  datatype Writing = Writing(sp: Spelling, style: Unbound -> Manner)

  // ---- Names ----

  function WordFor(e: Unbound): FunctionWord
    requires IsCall(e) || e.ConditionalOf?
  {
    match e
    case ExtremeOf(minimum, _, _) => ExtremeWord(minimum)
    case IfOf(_, _, _) => ExtendedWord(IfCall)
    case LogicalOf(connective, _) => ExtendedWord(if connective.And? then AndCall else OrCall)
    case NotOf(_) => ExtendedWord(NotCall)
    case RoundOf(_, _) => ExtendedWord(RoundCall)
    case BlankOf(_) => ExtendedWord(BlankCall)
    case ConditionalOf(aggregate, _) => ConditionalWord(FunctionFor(aggregate), true)
  }

  function FunctionFor(aggregate: UnboundAggregate): ConditionalFunction {
    match aggregate
    case SumColumn(_) => SumFunction
    case AverageColumn(_) => AverageFunction
    case CountMatches => CountFunction
  }

  predicate IsName(name: string) {
    name != [] && IsLetter(name[0]) && forall i :: 0 <= i < |name| ==> IsWord(name[i])
  }

  // A conditional with one criterion may be called by its singular name.
  predicate NameSuits(e: Unbound, name: string)
    requires IsCall(e) || e.ConditionalOf?
  {
    && IsName(name)
    && (WordOf(name) == WordFor(e)
        || (e.ConditionalOf? && |e.criteria| == 1 && WordOf(name) == ConditionalWord(FunctionFor(e.aggregate), false)))
  }

  ghost predicate Legible(w: Writing) {
    forall e :: IsCall(e) || e.ConditionalOf? ==> NameSuits(e, w.style(e).name)
  }

  ghost predicate IsSingular(w: Writing, e: Unbound)
    requires e.ConditionalOf?
  {
    WordOf(w.style(e).name) == ConditionalWord(FunctionFor(e.aggregate), false)
  }

  // ---- Precedence ----

  function LevelOf(operator: InfixOperator): nat {
    match operator
    case Multiply => 1
    case Divide => 1
    case Add => 2
    case Subtract => 2
    case Relation(_) => 3
  }

  // In a place that takes operators up to this level, no parentheses.
  ghost predicate IsBare(w: Writing, e: Unbound, level: nat) {
    e.InfixOf? && LevelOf(e.operator) <= level && w.style(e).bare
  }

  predicate IsReference(e: Unbound) {
    e.CellReference? || e.SameRowReference? || e.TotalOf? || e.AggregateOf?
  }

  // ---- Texts ----

  // The operand of a criterion is part of the conditional it stands in.
  ghost predicate Belongs(k: UnboundCriterion, parent: Unbound) {
    k.operand.Some? ==> k.operand.value < parent
  }

  ghost predicate AllBelong(criteria: seq<UnboundCriterion>, parent: Unbound) {
    forall i :: 0 <= i < |criteria| ==> Belongs(criteria[i], parent)
  }

  lemma CriteriaBelong(e: Unbound)
    requires e.ConditionalOf?
    ensures AllBelong(e.criteria, e)
  {
    forall i | 0 <= i < |e.criteria| && e.criteria[i].operand.Some? ensures e.criteria[i].operand.value in SubFormulas(e) {
      OperandIsListed(e.criteria, e.criteria[i]);
    }
  }

  // A formula in a place that takes operators up to this level. An operator
  // groups to the left: its right operand stands one level tighter.
  ghost function TextAt(w: Writing, e: Unbound, level: nat): string
    decreases e, 3
  {
    if IsBare(w, e, level) then OpenText(w, e) else Text(w, e)
  }

  ghost function OpenText(w: Writing, e: Unbound): string
    requires e.InfixOf?
    decreases e, 1
  {
    TextAt(w, e.left, LevelOf(e.operator)) + " " + OperatorText(e.operator) + " " + TextAt(w, e.right, LevelOf(e.operator) - 1)
  }

  ghost function Text(w: Writing, e: Unbound): string
    decreases e, 2
  {
    match e
    case InfixOf(_, _, _) => "(" + OpenText(w, e) + ")"
    case ConditionalOf(_, _) => w.style(e).name + "(" + Join(ConditionalItems(w, e)) + ")"
    case NumberLiteral(_) => Format(w.sp, e)
    case CellReference(_) => Format(w.sp, e)
    case SameRowReference(_) => Format(w.sp, e)
    case TotalOf(_) => Format(w.sp, e)
    case AggregateOf(_, _) => Format(w.sp, e)
    case _ => w.style(e).name + "(" + Join(ArgumentTexts(w, SubFormulas(e), e)) + ")"
  }

  ghost function ArgumentTexts(w: Writing, nodes: seq<Unbound>, parent: Unbound): (r: seq<string>)
    requires forall c :: c in nodes ==> c < parent
    ensures |r| == |nodes|
    decreases parent, 0, |nodes|
  {
    if nodes == [] then []
    else
      assert nodes[0] in nodes && forall c :: c in nodes[1..] ==> c in nodes;
      [TextAt(w, nodes[0], 3)] + ArgumentTexts(w, nodes[1..], parent)
  }

  // The value column comes first in the plural form and last in the singular.
  ghost function ConditionalItems(w: Writing, e: Unbound): seq<string>
    requires e.ConditionalOf?
    decreases e, 1
  {
    CriteriaBelong(e);
    var criteria := CriterionTexts(w, e.criteria, e);
    if IsSingular(w, e) then criteria + WrittenValues(w, e) else WrittenValues(w, e) + criteria
  }

  ghost function WrittenValues(w: Writing, e: Unbound): seq<string>
    requires e.ConditionalOf?
  {
    if IsSingular(w, e) && OmitsValues(w, e) then [] else ValueItems(e.aggregate)
  }

  ghost predicate OmitsValues(w: Writing, e: Unbound)
    requires e.ConditionalOf?
  {
    w.style(e).omits && !e.aggregate.CountMatches? && |e.criteria| == 1 && e.aggregate.column == e.criteria[0].column
  }

  ghost function CriterionTexts(w: Writing, criteria: seq<UnboundCriterion>, parent: Unbound): (r: seq<string>)
    requires AllBelong(criteria, parent)
    ensures |r| == 2 * |criteria|
    decreases parent, 0, |criteria|
  {
    if criteria == [] then []
    else
      [ColumnText(criteria[0].column), TestText(w, criteria[0], parent)] + CriterionTexts(w, criteria[1..], parent)
  }

  predicate IsQuoted(quotes: bool, k: UnboundCriterion) {
    k.operand.None? || (k.operand.value.NumberLiteral? && (k.operator != Equal || quotes))
  }

  // The text inside the quotes of a test.
  function QuotedText(sp: Spelling, k: UnboundCriterion): string {
    match k.operand
    case None => if k.operator == Equal then "" else "<>"
    case Some(e) => ComparisonText(k.operator) + if e.NumberLiteral? then FormatNumber(sp, e.number) else ""
  }

  ghost function TestText(w: Writing, k: UnboundCriterion, parent: Unbound): string
    requires Belongs(k, parent)
    decreases parent, 0, 0
  {
    if IsQuoted(w.style(parent).quotes, k) then "\"" + QuotedText(w.sp, k) + "\"" else TextAt(w, k.operand.value, 2)
  }

  // ---- What the parser counts ----

  // The nodes recorded for a writing: column arguments count, quoted operands
  // do not.
  ghost function Cost(w: Writing, e: Unbound): nat
    decreases e, 1
  {
    match e
    case ConditionalOf(_, criteria) =>
      CriteriaBelong(e);
      1 + |WrittenValues(w, e)| + CriteriaCost(w, criteria, e)
    case _ => 1 + ListCost(w, SubFormulas(e), e)
  }

  ghost function ListCost(w: Writing, nodes: seq<Unbound>, parent: Unbound): nat
    requires forall c :: c in nodes ==> c < parent
    decreases parent, 0, |nodes|
  {
    if nodes == [] then 0
    else
      assert nodes[0] in nodes && forall c :: c in nodes[1..] ==> c in nodes;
      Cost(w, nodes[0]) + ListCost(w, nodes[1..], parent)
  }

  ghost function CriteriaCost(w: Writing, criteria: seq<UnboundCriterion>, parent: Unbound): nat
    requires AllBelong(criteria, parent)
    decreases parent, 0, |criteria|
  {
    if criteria == [] then 0
    else
      TestCost(w, criteria[0], parent) + CriteriaCost(w, criteria[1..], parent)
  }

  // The column argument, and the operand unless it is quoted.
  ghost function TestCost(w: Writing, k: UnboundCriterion, parent: Unbound): nat
    requires Belongs(k, parent)
    decreases parent, 0, 0
  {
    1 + if IsQuoted(w.style(parent).quotes, k) then 0 else Cost(w, k.operand.value)
  }

  // ---- The canonical writing ----

  function CanonicalName(e: Unbound): string {
    if IsCall(e) then CallName(e) else if e.ConditionalOf? then ConditionalName(e.aggregate) else ""
  }

  function CanonicalWriting(sp: Spelling): Writing {
    Writing(sp, e => Manner(CanonicalName(e), false, false, false))
  }

  lemma NamesAreWords(e: Unbound)
    requires IsCall(e) || e.ConditionalOf?
    ensures IsName(CanonicalName(e)) && WordOf(CanonicalName(e)) == WordFor(e)
  {
    if e.ExtremeOf? {
      ExtremeNames();
    } else if e.ConditionalOf? {
      ConditionalIsNamed(e);
    } else {
      ExtendedIsNamed(e);
    }
  }

  lemma ConditionalIsNamed(e: Unbound)
    requires e.ConditionalOf?
    ensures IsName(CanonicalName(e)) && WordOf(CanonicalName(e)) == WordFor(e)
  {
    ConditionalNames();
  }

  lemma ExtendedIsNamed(e: Unbound)
    requires IsCall(e) && !e.ExtremeOf?
    ensures IsName(CanonicalName(e)) && WordOf(CanonicalName(e)) == WordFor(e)
  {
    ExtendedNames();
  }

  lemma CanonicalIsLegible(sp: Spelling)
    ensures Legible(CanonicalWriting(sp))
  {
    forall e | IsCall(e) || e.ConditionalOf? ensures NameSuits(e, CanonicalWriting(sp).style(e).name) {
      NamesAreWords(e);
    }
  }

  // The canonical writing is the canonical print, and costs its nodes.
  lemma {:induction false} CanonicalText(sp: Spelling, e: Unbound)
    requires WellFormed(e)
    ensures Text(CanonicalWriting(sp), e) == Format(sp, e) && Cost(CanonicalWriting(sp), e) == ParserNodes(e)
    decreases e, 1
  {
    var w := CanonicalWriting(sp);
    match e {
      case InfixOf(_, left, right) =>
        assert SubFormulas(e) == [left, right];
        CanonicalArguments(sp, SubFormulas(e), e);
        CanonicalInfix(sp, e);
      case ConditionalOf(_, criteria) => CanonicalConditional(sp, e);
      case NumberLiteral(_) =>
      case CellReference(_) =>
      case SameRowReference(_) =>
      case TotalOf(_) =>
      case AggregateOf(_, _) =>
      case _ => CanonicalArguments(sp, SubFormulas(e), e);
    }
  }

  lemma CanonicalInfix(sp: Spelling, e: Unbound)
    requires e.InfixOf?
    requires Text(CanonicalWriting(sp), e.left) == Format(sp, e.left) && Text(CanonicalWriting(sp), e.right) == Format(sp, e.right)
    ensures Text(CanonicalWriting(sp), e) == Format(sp, e)
  {
    var w, l, o, r := CanonicalWriting(sp), Format(sp, e.left), OperatorText(e.operator), Format(sp, e.right);
    assert !w.style(e.left).bare && !w.style(e.right).bare;
    assert TextAt(w, e.left, LevelOf(e.operator)) == l && TextAt(w, e.right, LevelOf(e.operator) - 1) == r;
    assert OpenText(w, e) == l + " " + o + " " + r;
    assert "(" + (l + " " + o + " " + r) + ")" == "(" + l + " " + o + " " + r + ")";
  }

  lemma {:induction false} CanonicalArguments(sp: Spelling, nodes: seq<Unbound>, parent: Unbound)
    requires forall c :: c in nodes ==> c < parent && WellFormed(c)
    ensures ArgumentTexts(CanonicalWriting(sp), nodes, parent) == FormatAll(sp, nodes, parent)
    ensures ListCost(CanonicalWriting(sp), nodes, parent) == ListNodes(nodes, parent)
    ensures forall c :: c in nodes ==> Text(CanonicalWriting(sp), c) == Format(sp, c)
    decreases parent, 0, |nodes|
  {
    if nodes != [] {
      assert nodes[0] in nodes && forall c :: c in nodes[1..] ==> c in nodes;
      CanonicalText(sp, nodes[0]);
      CanonicalArguments(sp, nodes[1..], parent);
      assert nodes == [nodes[0]] + nodes[1..];
    }
  }

  lemma CanonicalIsPlural(sp: Spelling, e: Unbound)
    requires e.ConditionalOf?
    ensures !IsSingular(CanonicalWriting(sp), e) && WrittenValues(CanonicalWriting(sp), e) == ValueItems(e.aggregate)
  {
    ConditionalIsNamed(e);
    var w := CanonicalWriting(sp);
    assert w.style(e) == Manner(CanonicalName(e), false, false, false);
    assert WordOf(w.style(e).name) == ConditionalWord(FunctionFor(e.aggregate), true);
  }

  lemma {:induction false} CanonicalConditional(sp: Spelling, e: Unbound)
    requires e.ConditionalOf? && WellFormed(e)
    ensures Text(CanonicalWriting(sp), e) == Format(sp, e) && Cost(CanonicalWriting(sp), e) == ParserNodes(e)
    decreases e, 0
  {
    CanonicalIsPlural(sp, e);
    forall k | k in e.criteria && k.operand.Some? ensures k.operand.value in SubFormulas(e) {
      OperandIsListed(e.criteria, k);
    }
    CriteriaBelong(e);
    CanonicalCriteria(sp, e.criteria, e);
  }

  lemma {:induction false} CanonicalCriteria(sp: Spelling, criteria: seq<UnboundCriterion>, parent: Unbound)
    requires forall k :: k in criteria && k.operand.Some? ==> k.operand.value < parent && WellFormed(k.operand.value)
    requires forall k :: k in criteria ==> WellFormedCriterion(k)
    ensures CriterionTexts(CanonicalWriting(sp), criteria, parent) == CriteriaItems(sp, criteria, parent)
    ensures CriteriaCost(CanonicalWriting(sp), criteria, parent) == CriteriaNodes(criteria, parent)
    decreases parent, 0, |criteria|
  {
    if criteria != [] {
      assert criteria[0] in criteria && forall k :: k in criteria[1..] ==> k in criteria;
      CanonicalTest(sp, criteria[0], parent);
      CanonicalCriteria(sp, criteria[1..], parent);
      var w, k := CanonicalWriting(sp), criteria[0];
      assert CriterionTexts(w, criteria, parent)
        == [ColumnText(k.column), TestText(w, k, parent)] + CriterionTexts(w, criteria[1..], parent);
      assert CriteriaItems(sp, criteria, parent)
        == [ColumnText(k.column), FormatCriterion(sp, k, parent)] + CriteriaItems(sp, criteria[1..], parent);
    }
  }

  lemma {:induction false} CanonicalTest(sp: Spelling, k: UnboundCriterion, parent: Unbound)
    requires k.operand.Some? ==> k.operand.value < parent && WellFormed(k.operand.value)
    requires WellFormedCriterion(k)
    ensures TestText(CanonicalWriting(sp), k, parent) == FormatCriterion(sp, k, parent)
    ensures TestCost(CanonicalWriting(sp), k, parent) == CriterionNodes(k, parent)
    decreases parent, 0, 0
  {
    if k.operand.Some? {
      CanonicalText(sp, k.operand.value);
      if IsQuoted(false, k) {
        var operator, number := ComparisonText(k.operator), FormatNumber(sp, k.operand.value.number);
        assert "\"" + (operator + number) + "\"" == "\"" + operator + number + "\"";
      }
    } else {
      assert "\"" + "" + "\"" == "\"\"" && "\"" + "<>" + "\"" == "\"<>\"";
    }
  }
}
