/** Formulas with human addresses, their canonical print and their measures. */
module UnboundFormulas {
  import opened Model

  // An entity or schema key and a field key.
  datatype Address = Address(owner: string, field: string)

  datatype InfixOperator = Add | Subtract | Multiply | Divide | Relation(comparison: ComparisonOperator)

  datatype UnboundAggregate = SumColumn(column: Address) | AverageColumn(column: Address) | CountMatches

  datatype UnboundCriterion = UnboundCriterion(column: Address, operator: ComparisonOperator, operand: Option<Unbound>)

  datatype Unbound =
    | NumberLiteral(number: Number)
    | CellReference(address: Address)
    | SameRowReference(field: string)
    | TotalOf(column: Address)
    | AggregateOf(kind: ColumnAggregateFunction, column: Address)
    | ConditionalOf(aggregate: UnboundAggregate, criteria: seq<UnboundCriterion>)
    | InfixOf(operator: InfixOperator, left: Unbound, right: Unbound)
    | ExtremeOf(minimum: bool, left: Unbound, right: Unbound)
    | IfOf(condition: Unbound, thenValue: Unbound, elseValue: Unbound)
    | LogicalOf(connective: Connective, arguments: seq<Unbound>)
    | NotOf(operand: Unbound)
    | RoundOf(operand: Unbound, digits: Unbound)
    | BlankOf(operand: Unbound)

  const MAX_INPUT := 4096
  const MAX_CRITERIA := 16

  // How binary64 values are spelled: the shortest print of a value that is not
  // negative, the reading of a literal, a literal followed by a percent sign,
  // and the value of a small integer.
  datatype Spelling = Spelling(
    show: Number -> string,
    read: string -> Option<Float>,
    percent: string -> string,
    integer: nat -> Number
  )

  // ---- Trees ----

  function OperandsOf(criteria: seq<UnboundCriterion>): (r: seq<Unbound>)
    ensures forall c :: c in r ==> exists k :: k in criteria && k.operand == Some(c)
  {
    if criteria == [] then []
    else
      var rest := OperandsOf(criteria[1..]);
      match criteria[0].operand
      case None => rest
      case Some(c) => [c] + rest
  }

  // push_children, in evaluation order.
  function SubFormulas(e: Unbound): (r: seq<Unbound>)
    ensures forall c :: c in r ==> c < e
  {
    match e
    case ConditionalOf(_, criteria) => OperandsOf(criteria)
    case InfixOf(_, left, right) => [left, right]
    case ExtremeOf(_, left, right) => [left, right]
    case IfOf(condition, thenValue, elseValue) => [condition, thenValue, elseValue]
    case LogicalOf(_, arguments) => arguments
    case NotOf(operand) => [operand]
    case RoundOf(operand, digits) => [operand, digits]
    case BlankOf(operand) => [operand]
    case _ => []
  }

  function Depth(e: Unbound): nat
    decreases e, 1
  {
    1 + MaxDepth(SubFormulas(e), e)
  }

  function MaxDepth(nodes: seq<Unbound>, ghost parent: Unbound): nat
    requires forall c :: c in nodes ==> c < parent
    decreases parent, 0, |nodes|
  {
    if nodes == [] then 0
    else
      assert nodes[0] in nodes && forall c :: c in nodes[1..] ==> c in nodes;
      Max(Depth(nodes[0]), MaxDepth(nodes[1..], parent))
  }

  function Max(a: nat, b: nat): nat {
    if a < b then b else a
  }

  function NodeCount(e: Unbound): nat
    decreases e, 1
  {
    1 + NodeCounts(SubFormulas(e), e)
  }

  function NodeCounts(nodes: seq<Unbound>, ghost parent: Unbound): nat
    requires forall c :: c in nodes ==> c < parent
    decreases parent, 0, |nodes|
  {
    if nodes == [] then 0
    else
      assert nodes[0] in nodes && forall c :: c in nodes[1..] ==> c in nodes;
      NodeCount(nodes[0]) + NodeCounts(nodes[1..], parent)
  }

  // ---- The canonical print ----

  function FormatNumber(sp: Spelling, n: Number): string {
    if n.rank < 0 then "-" + sp.show(Number(-n.rank)) else sp.show(n)
  }

  function OperatorText(operator: InfixOperator): string {
    match operator
    case Add => "+"
    case Subtract => "-"
    case Multiply => "*"
    case Divide => "/"
    case Relation(comparison) => ComparisonText(comparison)
  }

  function ComparisonText(comparison: ComparisonOperator): string {
    match comparison
    case Equal => "="
    case NotEqual => "<>"
    case Less => "<"
    case LessOrEqual => "<="
    case Greater => ">"
    case GreaterOrEqual => ">="
  }

  function Suffix(kind: ColumnAggregateFunction): string {
    match kind
    case Average => "average"
    case Count => "count"
    case Minimum => "min"
    case Maximum => "max"
  }

  function ColumnText(column: Address): string {
    "[" + column.owner + "." + column.field + ":column]"
  }

  // The name and arguments of a formula printed as a function call.
  predicate IsCall(e: Unbound) {
    e.ExtremeOf? || e.IfOf? || e.LogicalOf? || e.NotOf? || e.RoundOf? || e.BlankOf?
  }

  function CallName(e: Unbound): string
    requires IsCall(e)
  {
    match e
    case ExtremeOf(minimum, _, _) => if minimum then "min" else "max"
    case IfOf(_, _, _) => "IF"
    case LogicalOf(connective, _) => if connective.And? then "AND" else "OR"
    case NotOf(_) => "NOT"
    case RoundOf(_, _) => "ROUND"
    case BlankOf(_) => "ISBLANK"
  }

  function ConditionalName(aggregate: UnboundAggregate): string {
    match aggregate
    case SumColumn(_) => "SUMIFS"
    case AverageColumn(_) => "AVERAGEIFS"
    case CountMatches => "COUNTIFS"
  }

  function Join(items: seq<string>): string {
    if items == [] then "" else if |items| == 1 then items[0] else items[0] + ", " + Join(items[1..])
  }

  // format_unbound_expression.
  function Format(sp: Spelling, e: Unbound): string
    decreases e, 1
  {
    match e
    case NumberLiteral(number) => FormatNumber(sp, number)
    case CellReference(address) => "[" + address.owner + "." + address.field + "]"
    case SameRowReference(field) => "[." + field + "]"
    case TotalOf(column) => "[" + column.owner + "." + column.field + ":total]"
    case AggregateOf(kind, column) => "[" + column.owner + "." + column.field + ":" + Suffix(kind) + "]"
    case ConditionalOf(aggregate, criteria) =>
      ConditionalName(aggregate) + "("
      + Join(ValueItems(aggregate) + CriteriaItems(sp, criteria, e)) + ")"
    case InfixOf(operator, left, right) => "(" + Format(sp, left) + " " + OperatorText(operator) + " " + Format(sp, right) + ")"
    case _ => CallName(e) + "(" + Join(FormatAll(sp, SubFormulas(e), e)) + ")"
  }

  function FormatAll(sp: Spelling, nodes: seq<Unbound>, ghost parent: Unbound): (r: seq<string>)
    requires forall c :: c in nodes ==> c < parent
    ensures |r| == |nodes|
    decreases parent, 0, |nodes|
  {
    if nodes == [] then []
    else
      assert nodes[0] in nodes && forall c :: c in nodes[1..] ==> c in nodes;
      [Format(sp, nodes[0])] + FormatAll(sp, nodes[1..], parent)
  }

  function ValueItems(aggregate: UnboundAggregate): seq<string> {
    match aggregate
    case SumColumn(column) => [ColumnText(column)]
    case AverageColumn(column) => [ColumnText(column)]
    case CountMatches => []
  }

  function CriteriaItems(sp: Spelling, criteria: seq<UnboundCriterion>, ghost parent: Unbound): (r: seq<string>)
    requires forall k :: k in criteria && k.operand.Some? ==> k.operand.value < parent
    ensures |r| == 2 * |criteria|
    decreases parent, 0, |criteria|
  {
    if criteria == [] then []
    else
      assert criteria[0] in criteria && forall k :: k in criteria[1..] ==> k in criteria;
      [ColumnText(criteria[0].column), FormatCriterion(sp, criteria[0], parent)] + CriteriaItems(sp, criteria[1..], parent)
  }

  // A quoted test, or the operand itself.
  function FormatCriterion(sp: Spelling, k: UnboundCriterion, ghost parent: Unbound): string
    requires k.operand.Some? ==> k.operand.value < parent
    decreases parent, 0, 0
  {
    match k.operand
    case None => if k.operator == Equal then "\"\"" else "\"<>\""
    case Some(e) =>
      if k.operator != Equal && e.NumberLiteral?
      then "\"" + ComparisonText(k.operator) + FormatNumber(sp, e.number) + "\""
      else Format(sp, e)
  }

  // ---- What the parser can produce ----

  predicate IsIdentifierStart(c: char) {
    'a' <= c <= 'z' || '0' <= c <= '9'
  }

  predicate IsIdentifierPart(c: char) {
    IsIdentifierStart(c) || c == '_' || c == '-'
  }

  // is_valid_identifier.
  predicate IsIdentifier(s: string) {
    s != [] && IsIdentifierStart(s[0]) && forall i :: 0 <= i < |s| ==> IsIdentifierPart(s[i])
  }

  predicate IsAddress(a: Address) {
    IsIdentifier(a.owner) && IsIdentifier(a.field)
  }

  predicate WellFormedAggregate(aggregate: UnboundAggregate) {
    !aggregate.CountMatches? ==> IsAddress(aggregate.column)
  }

  // A test without an operand is for blanks; an operand with another operator
  // than equality is a number.
  predicate WellFormedCriterion(k: UnboundCriterion) {
    && IsAddress(k.column)
    && (k.operand.None? ==> k.operator == Equal || k.operator == NotEqual)
    && (k.operand.Some? ==> k.operator == Equal || k.operand.value.NumberLiteral?)
  }

  predicate WellFormedNode(e: Unbound) {
    match e
    case CellReference(address) => IsAddress(address)
    case SameRowReference(field) => IsIdentifier(field)
    case TotalOf(column) => IsAddress(column)
    case AggregateOf(_, column) => IsAddress(column)
    case ConditionalOf(aggregate, criteria) =>
      WellFormedAggregate(aggregate) && 1 <= |criteria| <= MAX_CRITERIA && forall k :: k in criteria ==> WellFormedCriterion(k)
    case LogicalOf(_, arguments) => arguments != []
    case _ => true
  }

  predicate WellFormed(e: Unbound) {
    WellFormedNode(e) && forall c :: c in SubFormulas(e) ==> WellFormed(c)
  }

  // ---- The parser's own budgets ----

  // The nodes the parser counts on the canonical print: column arguments count,
  // quoted operands do not.
  function ParserNodes(e: Unbound): nat
    decreases e, 1
  {
    match e
    case ConditionalOf(aggregate, criteria) => 1 + |ValueItems(aggregate)| + CriteriaNodes(criteria, e)
    case _ => 1 + ListNodes(SubFormulas(e), e)
  }

  function ListNodes(nodes: seq<Unbound>, ghost parent: Unbound): nat
    requires forall c :: c in nodes ==> c < parent
    decreases parent, 0, |nodes|
  {
    if nodes == [] then 0
    else
      assert nodes[0] in nodes && forall c :: c in nodes[1..] ==> c in nodes;
      ParserNodes(nodes[0]) + ListNodes(nodes[1..], parent)
  }

  function CriteriaNodes(criteria: seq<UnboundCriterion>, ghost parent: Unbound): nat
    requires forall k :: k in criteria && k.operand.Some? ==> k.operand.value < parent
    decreases parent, 0, |criteria|
  {
    if criteria == [] then 0
    else
      assert criteria[0] in criteria && forall k :: k in criteria[1..] ==> k in criteria;
      CriterionNodes(criteria[0], parent) + CriteriaNodes(criteria[1..], parent)
  }

  function CriterionNodes(k: UnboundCriterion, ghost parent: Unbound): nat
    requires k.operand.Some? ==> k.operand.value < parent
    decreases parent, 0, 0
  {
    1 + if k.operand.Some? && k.operator == Equal then ParserNodes(k.operand.value) else 0
  }

  // How deeply the parser nests on the canonical print: one level for each
  // parenthesis, call or minus sign.
  function ParserNesting(e: Unbound): nat
    decreases e, 1
  {
    match e
    case NumberLiteral(number) => if number.rank < 0 then 1 else 0
    case CellReference(_) => 0
    case SameRowReference(_) => 0
    case TotalOf(_) => 0
    case AggregateOf(_, _) => 0
    case _ => 1 + ListNesting(SubFormulas(e), e)
  }

  function ListNesting(nodes: seq<Unbound>, ghost parent: Unbound): nat
    requires forall c :: c in nodes ==> c < parent
    decreases parent, 0, |nodes|
  {
    if nodes == [] then 0
    else
      assert nodes[0] in nodes && forall c :: c in nodes[1..] ==> c in nodes;
      Max(ParserNesting(nodes[0]), ListNesting(nodes[1..], parent))
  }

  // A formula within the depth limit never breaches the nesting budget, not
  // even with a negative literal at the deepest node.
  lemma {:induction false} NestingWithinDepth(e: Unbound)
    ensures ParserNesting(e) <= Depth(e)
    decreases e, 1
  {
    NestingsWithinDepths(SubFormulas(e), e);
  }

  lemma {:induction false} NestingsWithinDepths(nodes: seq<Unbound>, parent: Unbound)
    requires forall c :: c in nodes ==> c < parent
    ensures ListNesting(nodes, parent) <= MaxDepth(nodes, parent)
    decreases parent, 0, |nodes|
  {
    if nodes != [] {
      assert nodes[0] in nodes && forall c :: c in nodes[1..] ==> c in nodes;
      NestingWithinDepth(nodes[0]);
      NestingsWithinDepths(nodes[1..], parent);
    }
  }

  lemma {:induction false} SubFormulaNesting(nodes: seq<Unbound>, parent: Unbound, c: Unbound)
    requires (forall n :: n in nodes ==> n < parent) && c in nodes
    ensures ParserNesting(c) <= ListNesting(nodes, parent)
  {
    assert nodes[0] in nodes && forall n :: n in nodes[1..] ==> n in nodes;
    if c != nodes[0] {
      SubFormulaNesting(nodes[1..], parent, c);
    }
  }

  // The parser counts at least the nodes of the tree: a quoted operand is not
  // counted, but the column before it is.
  lemma {:induction false} NodesWithinParserNodes(e: Unbound)
    requires WellFormed(e)
    ensures NodeCount(e) <= ParserNodes(e)
    decreases e, 1
  {
    if e.ConditionalOf? {
      forall k | k in e.criteria && k.operand.Some? ensures k.operand.value in SubFormulas(e) {
        OperandIsListed(e.criteria, k);
      }
      CriteriaWithinParserNodes(e.criteria, e);
    } else {
      ListWithinParserNodes(SubFormulas(e), e);
    }
  }

  lemma {:induction false} OperandIsListed(criteria: seq<UnboundCriterion>, k: UnboundCriterion)
    requires k in criteria && k.operand.Some?
    ensures k.operand.value in OperandsOf(criteria)
  {
    if criteria[0] != k {
      assert k in criteria[1..];
      OperandIsListed(criteria[1..], k);
    }
  }

  lemma {:induction false} ListWithinParserNodes(nodes: seq<Unbound>, parent: Unbound)
    requires forall c :: c in nodes ==> c < parent && WellFormed(c)
    ensures NodeCounts(nodes, parent) <= ListNodes(nodes, parent)
    decreases parent, 0, |nodes|
  {
    if nodes != [] {
      assert nodes[0] in nodes && forall c :: c in nodes[1..] ==> c in nodes;
      NodesWithinParserNodes(nodes[0]);
      ListWithinParserNodes(nodes[1..], parent);
    }
  }

  lemma {:induction false} CriteriaWithinParserNodes(criteria: seq<UnboundCriterion>, parent: Unbound)
    requires forall k :: k in criteria && k.operand.Some? ==> k.operand.value < parent
    requires forall k :: k in criteria && k.operand.Some? ==>
      WellFormed(k.operand.value) && (k.operator != Equal ==> k.operand.value.NumberLiteral?)
    ensures forall c :: c in OperandsOf(criteria) ==> c < parent
    ensures NodeCounts(OperandsOf(criteria), parent) <= CriteriaNodes(criteria, parent)
    decreases parent, 0, |criteria|
  {
    if criteria != [] {
      assert criteria[0] in criteria && forall k :: k in criteria[1..] ==> k in criteria;
      CriteriaWithinParserNodes(criteria[1..], parent);
      if criteria[0].operand.Some? {
        var c := criteria[0].operand.value;
        NodesWithinParserNodes(c);
        assert OperandsOf(criteria)[1..] == OperandsOf(criteria[1..]);
        assert c.NumberLiteral? ==> NodeCount(c) == 1;
      }
    }
  }

  // ---- Structure validation ----

  datatype ComplexityLimit = NodesExceeded | DepthExceeded | CanonicalLengthExceeded

  ghost function StackNodes(stack: seq<(Unbound, nat)>): nat {
    if stack == [] then 0 else NodeCount(stack[0].0) + StackNodes(stack[1..])
  }

  // No node on the stack is deeper than the first depth that is refused.
  ghost predicate Shallow(stack: seq<(Unbound, nat)>) {
    forall i :: 0 <= i < |stack| ==> stack[i].1 <= MAX_DEPTH + 1
  }

  ghost predicate StackWithin(stack: seq<(Unbound, nat)>) {
    forall i :: 0 <= i < |stack| ==> stack[i].1 + Depth(stack[i].0) <= MAX_DEPTH + 1
  }

  lemma {:induction false} StackOfConcat(a: seq<(Unbound, nat)>, b: seq<(Unbound, nat)>)
    ensures StackNodes(a + b) == StackNodes(a) + StackNodes(b)
  {
    if a == [] {
      assert a + b == b;
    } else {
      assert (a + b)[1..] == a[1..] + b;
      StackOfConcat(a[1..], b);
    }
  }

  function AtDepth(nodes: seq<Unbound>, depth: nat): (r: seq<(Unbound, nat)>)
    ensures |r| == |nodes| && forall i :: 0 <= i < |r| ==> r[i] == (nodes[i], depth)
  {
    if nodes == [] then [] else [(nodes[0], depth)] + AtDepth(nodes[1..], depth)
  }

  lemma {:induction false} PushedNodes(nodes: seq<Unbound>, depth: nat, parent: Unbound)
    requires forall c :: c in nodes ==> c < parent
    ensures StackNodes(AtDepth(nodes, depth)) == NodeCounts(nodes, parent)
  {
    if nodes != [] {
      assert nodes[0] in nodes && forall c :: c in nodes[1..] ==> c in nodes;
      PushedNodes(nodes[1..], depth, parent);
    }
  }

  lemma {:induction false} PushedDepths(nodes: seq<Unbound>, depth: nat, parent: Unbound)
    requires forall c :: c in nodes ==> c < parent
    ensures StackWithin(AtDepth(nodes, depth)) <==> nodes == [] || depth + MaxDepth(nodes, parent) <= MAX_DEPTH + 1
  {
    if nodes != [] {
      assert nodes[0] in nodes && forall c :: c in nodes[1..] ==> c in nodes;
      PushedDepths(nodes[1..], depth, parent);
      var pushed := AtDepth(nodes, depth);
      assert pushed == [(nodes[0], depth)] + AtDepth(nodes[1..], depth);
    }
  }

  // validate_unbound_expression_structure, node and depth limits: None when
  // both hold, else the first one breached in evaluation order.
  method ValidateStructure(sp: Spelling, e: Unbound) returns (breached: Option<ComplexityLimit>)
    ensures breached.None? <==> NodeCount(e) <= MAX_NODES && Depth(e) <= MAX_DEPTH && |Format(sp, e)| <= MAX_INPUT
    ensures breached == Some(CanonicalLengthExceeded) <==>
      NodeCount(e) <= MAX_NODES && Depth(e) <= MAX_DEPTH && |Format(sp, e)| > MAX_INPUT
  {
    var nodes := 0;
    var stack: seq<(Unbound, nat)> := [(e, 1)];
    assert stack[1..] == [];
    while stack != []
      invariant nodes <= MAX_NODES && nodes + StackNodes(stack) == NodeCount(e)
      invariant StackWithin(stack) <==> Depth(e) <= MAX_DEPTH
      invariant Shallow(stack)
      decreases StackNodes(stack)
    {
      var (node, depth) := stack[0];
      if depth > MAX_DEPTH {
        DeepNode(stack);
        return Some(DepthExceeded);
      }
      nodes := nodes + 1;
      StackStep(stack);
      if nodes > MAX_NODES {
        return Some(NodesExceeded);
      }
      stack := AtDepth(SubFormulas(node), depth + 1) + stack[1..];
    }
    if |Format(sp, e)| > MAX_INPUT {
      return Some(CanonicalLengthExceeded);
    }
    breached := None;
  }

  lemma DeepNode(stack: seq<(Unbound, nat)>)
    requires stack != [] && stack[0].1 > MAX_DEPTH
    ensures !StackWithin(stack)
  {
    assert Depth(stack[0].0) >= 1;
  }

  lemma StaysShallow(rest: seq<(Unbound, nat)>, pushed: seq<(Unbound, nat)>)
    requires Shallow(rest) && Shallow(pushed)
    ensures Shallow(pushed + rest)
  {
  }

  // Taking a node off the stack and pushing its children keeps the count and
  // the depths in question.
  lemma StackStep(stack: seq<(Unbound, nat)>)
    requires stack != [] && stack[0].1 <= MAX_DEPTH
    ensures var after := AtDepth(SubFormulas(stack[0].0), stack[0].1 + 1) + stack[1..];
      && StackNodes(stack) == 1 + StackNodes(after)
      && (StackWithin(stack) <==> StackWithin(after))
      && (Shallow(stack) ==> Shallow(after))
  {
    var (node, depth) := stack[0];
    var rest, pushed := stack[1..], AtDepth(SubFormulas(node), depth + 1);
    assert stack == [(node, depth)] + rest;
    StackOfConcat(pushed, rest);
    PushedNodes(SubFormulas(node), depth + 1, node);
    PushedDepths(SubFormulas(node), depth + 1, node);
    PopAndPush(node, depth, pushed, rest);
    if Shallow(stack) {
      assert forall i :: 0 <= i < |rest| ==> rest[i] == stack[i + 1];
      StaysShallow(rest, pushed);
    }
  }

  lemma PopAndPush(node: Unbound, depth: nat, pushed: seq<(Unbound, nat)>, rest: seq<(Unbound, nat)>)
    requires depth <= MAX_DEPTH && pushed == AtDepth(SubFormulas(node), depth + 1)
    requires StackWithin(pushed) <==>
      SubFormulas(node) == [] || depth + 1 + MaxDepth(SubFormulas(node), node) <= MAX_DEPTH + 1
    ensures StackWithin([(node, depth)] + rest) <==> StackWithin(pushed + rest)
  {
    var before, after := [(node, depth)] + rest, pushed + rest;
    assert forall i :: 0 <= i < |rest| ==> before[i + 1] == rest[i] && after[|pushed| + i] == rest[i];
    assert StackWithin(before) <==> depth + Depth(node) <= MAX_DEPTH + 1 && StackWithin(rest) by {
      assert before[0] == (node, depth);
    }
    assert StackWithin(after) <==> StackWithin(pushed) && StackWithin(rest) by {
      assert forall i :: 0 <= i < |pushed| ==> after[i] == pushed[i];
    }
  }
}
