/**
 The recursive-descent formula parser. Every method takes, as ghost arguments, a
 formula its input may start with and the text after it: when the input is that
 formula as the parser's writing writes it, the method returns exactly that
 formula, or refuses because a budget is exceeded. On any other input it may
 refuse, but what it accepts is well formed.
 */
module FormulaParser {
  import opened Model
  import opened Criteria
  import opened UnboundFormulas
  import opened ParserText
  import opened Writings
  import opened WrittenTexts

  datatype Parsed<+T> = Success(value: T) | ParseError

  // What is left of a chain of operators: the formula it folds to, the nodes
  // recorded by then and the nesting its operands may need.
  datatype Chain = Chain(goal: Unbound, links: seq<Link>, total: nat, depth: nat)

  // The same chain, further on.
  predicate SameChain(a: Option<Chain>, b: Option<Chain>) {
    && (a.Some? <==> b.Some?)
    && (a.Some? ==> a.value.goal == b.value.goal && a.value.total == b.value.total && a.value.depth == b.value.depth)
  }

  class Parser {
    const input: string
    const rules: Rules
    const sp: Spelling
    ghost const w: Writing
    var position: nat
    var nodes: nat
    var nesting: nat

    constructor (rules: Rules, sp: Spelling, ghost w: Writing, input: string)
      ensures this.rules == rules && this.sp == sp && this.w == w && this.input == input
      ensures Valid() && position == 0 && nodes == 0 && nesting == 0 && Rest() == input
    {
      this.rules, this.sp, this.w, this.input := rules, sp, w, input;
      position, nodes, nesting := 0, 0, 0;
    }

    predicate Valid()
      reads this
    {
      position <= |input| && nodes <= MAX_NODES && nesting <= MAX_DEPTH
    }

    function Rest(): string
      requires Valid()
      reads this
    {
      input[position..]
    }

    // The parser only moves forward, and leaves every nesting it entered.
    twostate predicate Moved()
      reads this
    {
      old(Valid()) && Valid() && position >= old(position) && nodes >= old(nodes) && nesting == old(nesting)
    }

    // The writing is legible, and spells numbers as the parser does.
    ghost predicate Reads() {
      w.sp == sp && Readable(rules, w)
    }

    // Recording this many nodes in all, or nesting this much deeper, breaches a
    // limit.
    ghost predicate Exceeds(total: nat, depth: nat)
      reads this
    {
      total > MAX_NODES || nesting + depth > MAX_DEPTH
    }

    // The input is at this formula.
    ghost predicate Facing(e: Unbound, after: string)
      reads this
    {
      && Valid() && Reads() && WellFormed(e) && Ends(after)
      && SkipSpace(Rest()) == Text(w, e) + after
    }

    ghost predicate FacingShape(s: Shape, after: string, level: nat)
      reads this
    {
      && Valid() && Reads() && IsShape(s) && ShapeLevel(s) <= level && Stops(after, level)
      && SkipSpace(Rest()) == ShapeText(w, s) + after
    }

    // ---- Small steps ----

    method Advance(n: nat)
      requires Valid() && n <= |Rest()|
      modifies this`position
      ensures Moved() && Rest() == old(Rest())[n..] && position == old(position) + n
    {
      position := position + n;
    }

    method SkipWhitespace()
      requires Valid()
      modifies this`position
      ensures Moved() && Rest() == SkipSpace(old(Rest()))
    {
      while position < |input| && IsSpace(input[position])
        invariant Moved() && SkipSpace(Rest()) == SkipSpace(old(Rest()))
      {
        assert Rest()[1..] == input[position + 1..];
        position := position + 1;
      }
    }

    // Skip spaces and take one expected character.
    method Expect(expected: char) returns (ok: bool)
      requires Valid()
      modifies this`position
      ensures Moved()
      ensures ok <==> StartsWith(SkipSpace(old(Rest())), expected)
      ensures ok ==> Rest() == SkipSpace(old(Rest()))[1..] && position > old(position)
    {
      SkipWhitespace();
      ok := StartsWith(Rest(), expected);
      if ok {
        Advance(1);
      }
    }

    method RecordNode() returns (ok: bool)
      requires Valid()
      modifies this`nodes
      ensures Moved() && (ok <==> old(nodes) < MAX_NODES)
      ensures nodes == if ok then old(nodes) + 1 else old(nodes)
    {
      ok := nodes < MAX_NODES;
      if ok {
        nodes := nodes + 1;
      }
    }

    // The limit with_nesting checks before it goes one level deeper.
    predicate AtNestingLimit()
      reads this
    {
      nesting >= MAX_DEPTH
    }

    // ---- Primaries ----

    method ParseNumber(ghost want: Option<Unbound>, ghost after: string) returns (r: Parsed<Unbound>)
      requires Valid()
      requires want.Some? ==>
        Facing(want.value, after) && want.value.NumberLiteral? && want.value.number.rank >= 0 && Rest() == SkipSpace(Rest())
      modifies this
      ensures Moved() && (r.Success? ==> WellFormed(r.value))
      ensures want.Some? && r.Success? ==> r.value == want.value && Rest() == after && nodes == old(nodes) + 1
      ensures want.Some? && r.ParseError? ==> old(nodes) + 1 > MAX_NODES
    {
      var rest := Rest();
      if want.Some? {
        LiteralIsReadWhole(Format(sp, want.value), after);
      }
      match AfterNumber(rest) {
        case None => return ParseError;
        case Some(tail) =>
          var literal := rest[..|rest| - |tail|];
          Advance(|rest| - |tail|);
          if want.Some? {
            TailIsSuffix(Format(sp, want.value), after);
          }
          NumberTail(rest);
          assert Rest() == tail;
          if StartsWith(tail, '%') {
            Advance(1);
            literal := sp.percent(literal);
          }
          var number := match sp.read(literal) case None => None case Some(f) => NewNumber(f);
          if number.None? {
            return ParseError;
          }
          var ok := RecordNode();
          if !ok {
            return ParseError;
          }
          r := Success(NumberLiteral(number.value));
      }
    }

    method ParseReference(ghost want: Option<Unbound>, ghost after: string) returns (r: Parsed<Unbound>)
      requires Valid() && StartsWith(Rest(), '[')
      requires want.Some? ==> Facing(want.value, after) && IsReference(want.value) && Rest() == SkipSpace(Rest())
      modifies this
      ensures Moved() && (r.Success? ==> WellFormed(r.value))
      ensures want.Some? && r.Success? ==> r.value == want.value && Rest() == after && nodes == old(nodes) + 1
      ensures want.Some? && r.ParseError? ==> old(nodes) + 1 > MAX_NODES
    {
      if want.Some? {
        ReferenceReads(want.value);
        BracketedReference(w, want.value, after);
      }
      Advance(1);
      match IndexOf(Rest(), ']') {
        case None => return ParseError;
        case Some(close) =>
          var reference := ReferenceIn(Rest()[..close]);
          if reference.None? {
            return ParseError;
          }
          Advance(close + 1);
          var ok := RecordNode();
          if !ok {
            return ParseError;
          }
          r := Success(reference.value);
      }
    }

    // [schema.field:column], the column argument of a conditional.
    method ParseColumnArgument(ghost want: Option<Address>, ghost after: string) returns (r: Parsed<Address>)
      requires Valid()
      requires want.Some? ==> IsAddress(want.value) && SkipSpace(Rest()) == ColumnText(want.value) + after
      modifies this
      ensures Moved() && (r.Success? ==> IsAddress(r.value) && position > old(position))
      ensures want.Some? && r.Success? ==> r.value == want.value && Rest() == after && nodes == old(nodes) + 1
      ensures want.Some? && r.ParseError? ==> old(nodes) + 1 > MAX_NODES
    {
      SkipWhitespace();
      if want.Some? {
        ColumnReads(want.value);
        BracketedColumn(want.value, after);
      }
      if !StartsWith(Rest(), '[') {
        return ParseError;
      }
      Advance(1);
      match IndexOf(Rest(), ']') {
        case None => return ParseError;
        case Some(close) =>
          var column := ColumnIn(Rest()[..close]);
          if column.None? {
            return ParseError;
          }
          Advance(close + 1);
          var ok := RecordNode();
          if !ok {
            return ParseError;
          }
          r := Success(column.value);
      }
    }

    method ParseUnary(ghost want: Option<Unbound>, ghost after: string) returns (r: Parsed<Unbound>)
      requires Valid()
      requires want.Some? ==> Facing(want.value, after)
      modifies this
      ensures Moved() && (r.Success? ==> WellFormed(r.value))
      ensures want.Some? && r.Success? ==> r.value == want.value && Rest() == after && nodes == old(nodes) + Cost(w, want.value)
      ensures want.Some? && r.ParseError? ==> Exceeds(old(nodes) + Cost(w, want.value), ParserNesting(want.value))
      decreases |input| - position, 3
    {
      SkipWhitespace();
      if want.Some? { TextStart(rules, w, want.value); }
      if !StartsWith(Rest(), '+') && !StartsWith(Rest(), '-') {
        r := ParsePrimary(want, after);
        return;
      }
      var minus := StartsWith(Rest(), '-');
      Advance(1);
      ghost var inner: Option<Unbound> := if want.Some? then Some(NumberLiteral(Negated(want.value.number))) else None;
      if want.Some? { NegativeDigits(rules, w, want.value.number, after); }
      if AtNestingLimit() {
        return ParseError;
      }
      nesting := nesting + 1;
      var operand := ParseUnary(inner, after);
      nesting := nesting - 1;
      if operand.ParseError? || !minus {
        return operand;
      }
      if operand.value.NumberLiteral? {
        return Success(NumberLiteral(Negated(operand.value.number)));
      }
      r := NegatedOperand(operand.value);
    }

    // A minus before anything but a number subtracts from zero.
    method NegatedOperand(operand: Unbound) returns (r: Parsed<Unbound>)
      requires Valid() && WellFormed(operand)
      modifies this`nodes
      ensures Moved() && (r.Success? ==> WellFormed(r.value))
    {
      var ok := RecordNode();
      if !ok {
        return ParseError;
      }
      ok := RecordNode();
      if !ok {
        return ParseError;
      }
      var zero := NumberLiteral(Number(0));
      assert WellFormed(zero);
      r := Success(InfixOf(Subtract, zero, operand));
    }

    method ParsePrimary(ghost want: Option<Unbound>, ghost after: string) returns (r: Parsed<Unbound>)
      requires Valid()
      requires want.Some? ==> Facing(want.value, after) && !IsNegative(want.value)
      modifies this
      ensures Moved() && (r.Success? ==> WellFormed(r.value))
      ensures want.Some? && r.Success? ==> r.value == want.value && Rest() == after && nodes == old(nodes) + Cost(w, want.value)
      ensures want.Some? && r.ParseError? ==> Exceeds(old(nodes) + Cost(w, want.value), ParserNesting(want.value))
      decreases |input| - position, 2
    {
      SkipWhitespace();
      if want.Some? { TextStart(rules, w, want.value); }
      var rest := Rest();
      if rest == [] {
        return ParseError;
      }
      if IsDigit(rest[0]) || rest[0] == '.' {
        r := ParseNumber(want, after);
      } else if rest[0] == '[' {
        r := ParseReference(want, after);
      } else if rest[0] == '(' {
        r := ParseParenthesized(want, after);
      } else if IsLetter(rest[0]) {
        r := ParseFunction(want, after);
      } else {
        r := ParseError;
      }
    }

    method ParseParenthesized(ghost want: Option<Unbound>, ghost after: string) returns (r: Parsed<Unbound>)
      requires Valid() && StartsWith(Rest(), '(')
      requires want.Some? ==> Facing(want.value, after) && want.value.InfixOf?
      modifies this
      ensures Moved() && (r.Success? ==> WellFormed(r.value))
      ensures want.Some? && r.Success? ==> r.value == want.value && Rest() == after && nodes == old(nodes) + Cost(w, want.value)
      ensures want.Some? && r.ParseError? ==> Exceeds(old(nodes) + Cost(w, want.value), ParserNesting(want.value))
      decreases |input| - position, 1
    {
      ghost var inner: Option<Shape> := None;
      if want.Some? {
        inner := Some(Open(want.value));
        ParenthesizedText(rules, w, want.value, after);
        OperandsOfInfix(w, want.value);
      }
      Advance(1);
      if AtNestingLimit() {
        return ParseError;
      }
      nesting := nesting + 1;
      r := ParseLevel(3, inner, ")" + after);
      if r.Success? {
        var ok := Expect(')');
        if !ok {
          r := ParseError;
        }
      }
      nesting := nesting - 1;
    }

    // ---- Operators ----

    // At what is left of a chain.
    ghost predicate InChain(chain: Chain, level: nat, after: string, expression: Unbound)
      requires level >= 1
      reads this
    {
      && Valid() && Reads() && LinksSuit(chain.links, level, chain.depth) && Stops(after, level)
      && Folded(expression, chain.links) == chain.goal && nodes + LinksCost(w, chain.links) == chain.total
      && SkipSpace(Rest()) == SkipSpace(LinksText(w, chain.links, level) + after)
    }

    // parse_comparison, parse_additive and parse_multiplicative: level 3, 2 and
    // 1, each a loop over the next tighter level; level 0 is a unary operand.
    method ParseLevel(level: nat, ghost want: Option<Shape>, ghost after: string) returns (r: Parsed<Unbound>)
      requires Valid() && level <= 3
      requires want.Some? ==> FacingShape(want.value, after, level)
      modifies this
      ensures Moved() && (r.Success? ==> WellFormed(r.value))
      ensures want.Some? && r.Success? ==> r.value == want.value.formula && nodes == old(nodes) + Cost(w, want.value.formula)
      ensures want.Some? && r.Success? ==> SkipSpace(Rest()) == SkipSpace(after) && (level > 0 ==> Rest() == SkipSpace(after))
      ensures want.Some? && r.ParseError? ==> Exceeds(old(nodes) + Cost(w, want.value.formula), ShapeNesting(want.value))
      decreases |input| - position, 4 + 2 * level, 1
    {
      if level == 0 {
        r := ParseUnary(if want.Some? then Some(want.value.formula) else None, after);
        return;
      }
      ghost var head: Option<Shape>, chain: Option<Chain>, rest := None, None, after;
      if want.Some? {
        ShapeIsChain(w, want.value, level);
        LinksStop(w, Links(w, want.value, level), level, ShapeNesting(want.value), after);
        head := Some(Head(w, want.value, level));
        chain := Some(ChainOf(want.value, level, nodes));
        rest := LinksText(w, chain.value.links, level) + after;
        RegroupsChain(ShapeText(w, head.value), LinksText(w, chain.value.links, level), after);
      }
      r := ParseLevel(level - 1, head, rest);
      if r.ParseError? {
        return;
      }
      r := ParseOperators(level, r.value, chain, after);
    }

    ghost function ChainOf(s: Shape, level: nat, start: nat): Chain
      requires level >= 1
    {
      Chain(s.formula, Links(w, s, level), start + Cost(w, s.formula), ShapeNesting(s))
    }

    lemma RegroupsChain(head: string, links: string, after: string)
      ensures head + links + after == head + (links + after)
    {
    }

    // The operators of one level after the first operand, left to right.
    method ParseOperators(level: nat, first: Unbound, ghost want: Option<Chain>, ghost after: string) returns (r: Parsed<Unbound>)
      requires Valid() && WellFormed(first) && 1 <= level <= 3
      requires want.Some? ==> InChain(want.value, level, after, first)
      modifies this
      ensures Moved() && (r.Success? ==> WellFormed(r.value))
      ensures want.Some? && r.Success? ==> r.value == want.value.goal && nodes == want.value.total && Rest() == SkipSpace(after)
      ensures want.Some? && r.ParseError? ==> Exceeds(want.value.total, want.value.depth)
      decreases |input| - position, 3 + 2 * level, 1
    {
      r := Success(first);
      var more := true;
      ghost var chain := want;
      while more && r.Success?
        invariant Moved() && (r.Success? ==> WellFormed(r.value))
        invariant SameChain(want, chain)
        invariant want.Some? && r.Success? && more ==> InChain(chain.value, level, after, r.value)
        invariant want.Some? && r.Success? && !more ==>
          r.value == want.value.goal && nodes == want.value.total && Rest() == SkipSpace(after)
        invariant want.Some? && r.ParseError? ==> Exceeds(want.value.total, want.value.depth)
        decreases more, |input| - position
      {
        r, more, chain := NextOperator(level, r.value, chain, after);
      }
    }

    // One operator with its operand, if one follows.
    method NextOperator(level: nat, left: Unbound, ghost want: Option<Chain>, ghost after: string)
        returns (r: Parsed<Unbound>, more: bool, ghost rest: Option<Chain>)
      requires Valid() && WellFormed(left) && 1 <= level <= 3
      requires want.Some? ==> InChain(want.value, level, after, left)
      modifies this
      ensures Moved() && (more ==> position > old(position)) && (r.Success? ==> WellFormed(r.value))
      ensures SameChain(want, rest)
      ensures want.Some? && r.Success? && more ==> InChain(rest.value, level, after, r.value)
      ensures want.Some? && r.Success? && !more ==> r.value == want.value.goal && nodes == want.value.total && Rest() == SkipSpace(after)
      ensures want.Some? && r.ParseError? ==> Exceeds(want.value.total, want.value.depth)
      decreases |input| - position, 3 + 2 * level, 0
    {
      rest := want;
      SkipWhitespace();
      OperatorStarts(Rest(), level);
      if want.Some? { ChainFaces(want.value, level, after, left); }
      var operator := OperatorAt(Rest(), level);
      if operator.None? {
        return Success(left), false, rest;
      }
      more := true;
      r := ParseOperand(level, operator.value, want, after);
      if r.Success? {
        r := Success(InfixOf(operator.value, left, r.value));
      }
      if want.Some? && want.value.links != [] {
        OperandReady(rules, w, want.value.links, level, want.value.depth, after);
        rest := Some(want.value.(links := want.value.links[1..]));
      }
    }

    // At the operator that is due, or past the chain.
    lemma ChainFaces(chain: Chain, level: nat, after: string, left: Unbound)
      requires 1 <= level <= 3 && InChain(chain, level, after, left) && Rest() == SkipSpace(Rest())
      ensures chain.links == [] ==> OperatorAt(Rest(), level) == None && Rest() == SkipSpace(after)
      ensures chain.links != [] ==>
        && LinkSuits(chain.links[0], level, chain.depth)
        && OperatorAt(Rest(), level) == Some(chain.links[0].operator)
        && Rest() == OperatorText(chain.links[0].operator) + AfterOperator(w, chain.links, level, after)
    {
      if chain.links == [] {
        assert LinksText(w, chain.links, level) + after == after;
        OperatorStarts(Rest(), level);
      } else {
        assert chain.links[0] in chain.links;
        LinkStarts(w, chain.links, level, after);
        OperatorReads(chain.links[0].operator, AfterOperator(w, chain.links, level, after));
      }
    }

    // An operator and the operand of the next tighter level after it.
    method ParseOperand(level: nat, operator: InfixOperator, ghost want: Option<Chain>, ghost after: string) returns (r: Parsed<Unbound>)
      requires Valid() && level >= 1 && OperatorText(operator) <= Rest() && LevelOf(operator) == level
      requires want.Some? ==> FacingLink(want.value, level, after, operator)
      modifies this
      ensures Moved() && position > old(position) && (r.Success? ==> WellFormed(r.value))
      ensures want.Some? && r.Success? ==>
        && r.value == want.value.links[0].right && nodes + LinksCost(w, want.value.links[1..]) == want.value.total
        && SkipSpace(Rest()) == SkipSpace(LinksText(w, want.value.links[1..], level) + after)
      ensures want.Some? && r.ParseError? ==> Exceeds(want.value.total, want.value.depth)
      decreases |input| - position, 2 + 2 * level, 0
    {
      OperatorStart(operator);
      Advance(|OperatorText(operator)|);
      var ok := RecordNode();
      if !ok {
        return ParseError;
      }
      ghost var shape: Option<Shape>, rest := None, after;
      if want.Some? {
        OperandReady(rules, w, want.value.links, level, want.value.depth, after);
        shape, rest := Some(ShapeOf(w, want.value.links[0].right, level - 1)), LinksText(w, want.value.links[1..], level) + after;
      }
      r := ParseLevel(level - 1, shape, rest);
    }

    // At an operator of a chain.
    ghost predicate FacingLink(chain: Chain, level: nat, after: string, operator: InfixOperator)
      requires level >= 1
      reads this
    {
      && Valid() && Reads() && chain.links != [] && LinksSuit(chain.links, level, chain.depth) && Stops(after, level)
      && LinkSuits(chain.links[0], level, chain.depth) && chain.links[0].operator == operator
      && nodes + LinksCost(w, chain.links) == chain.total
      && Rest() == OperatorText(operator) + AfterOperator(w, chain.links, level, after)
    }

    // ---- Calls ----

    // The leading word of the input.
    method ReadName() returns (name: string)
      requires Valid() && Rest() != [] && IsLetter(Rest()[0])
      modifies this`position
      ensures Moved() && position > old(position)
      ensures name == TakeWord(old(Rest())) && Rest() == old(Rest())[|name|..]
    {
      var start := position;
      ghost var whole := Rest();
      Advance(1);
      while position < |input| && IsWord(input[position])
        invariant Moved() && start < position
        invariant TakeWord(whole) == input[start..position] + TakeWord(Rest())
      {
        assert Rest() == [input[position]] + input[position + 1..];
        Advance(1);
      }
      name := input[start..position];
    }

    method ParseFunction(ghost want: Option<Unbound>, ghost after: string) returns (r: Parsed<Unbound>)
      requires Valid() && Rest() != [] && IsLetter(Rest()[0])
      requires want.Some? ==> Facing(want.value, after) && (IsCall(want.value) || want.value.ConditionalOf?)
      modifies this
      ensures Moved() && (r.Success? ==> WellFormed(r.value))
      ensures want.Some? && r.Success? ==> r.value == want.value && Rest() == after && nodes == old(nodes) + Cost(w, want.value)
      ensures want.Some? && r.ParseError? ==> Exceeds(old(nodes) + Cost(w, want.value), ParserNesting(want.value))
      decreases |input| - position, 1
    {
      ghost var rest := Rest();
      if want.Some? {
        SkipNothing(rest);
        CallText(w, want.value, after);
      }
      var name := ReadName();
      match WordOf(name) {
        case ExtendedWord(extended) => r := ParseExtended(extended, want, after);
        case ConditionalWord(conditional, plural) => r := ParseConditional(conditional, plural, want, after);
        case ExtremeWord(minimum) => r := ParseExtreme(minimum, want, after);
        case UnknownWord => r := ParseError;
      }
    }

    // Past the name of a call, at its opening parenthesis.
    ghost predicate FacingArguments(e: Unbound, after: string, word: FunctionWord)
      reads this
    {
      && Valid() && Reads() && WellFormed(e) && Ends(after) && (IsCall(e) || e.ConditionalOf?)
      && WordOf(w.style(e).name) == word && NameSuits(e, w.style(e).name)
      && Rest() == "(" + (ArgumentText(w, e) + (")" + after))
    }

    // The opening parenthesis and the node of a call.
    method OpenCall() returns (ok: bool)
      requires Valid()
      modifies this
      ensures Moved() && (ok ==> position > old(position) && nodes == old(nodes) + 1)
      ensures StartsWith(old(Rest()), '(') ==> (if ok then Rest() == old(Rest())[1..] else old(nodes) + 1 > MAX_NODES)
    {
      ok := Expect('(');
      if ok {
        ok := RecordNode();
      }
    }

    method ParseExtreme(minimum: bool, ghost want: Option<Unbound>, ghost after: string) returns (r: Parsed<Unbound>)
      requires Valid()
      requires want.Some? ==> FacingArguments(want.value, after, ExtremeWord(minimum))
      modifies this
      ensures Moved() && (r.Success? ==> WellFormed(r.value))
      ensures want.Some? && r.Success? ==> r.value == want.value && Rest() == after && nodes == old(nodes) + Cost(w, want.value)
      ensures want.Some? && r.ParseError? ==> Exceeds(old(nodes) + Cost(w, want.value), ParserNesting(want.value))
      decreases |input| - position, 12
    {
      if want.Some? {
        CallBudget(w, want.value);
        ListStart(rules, w, SubFormulas(want.value), after);
      }
      var ok := OpenCall();
      if !ok || AtNestingLimit() {
        return ParseError;
      }
      nesting := nesting + 1;
      var arguments := ParseTwo(if want.Some? then Some(SubFormulas(want.value)) else None, after);
      nesting := nesting - 1;
      if arguments.ParseError? {
        return ParseError;
      }
      r := Success(ExtremeOf(minimum, arguments.value[0], arguments.value[1]));
    }

    // At a list of arguments and the closing parenthesis.
    ghost predicate FacingList(formulas: seq<Unbound>, after: string)
      reads this
    {
      && Valid() && Reads() && formulas != [] && Ends(after)
      && (forall c :: c in formulas ==> WellFormed(c))
      && SkipSpace(Rest()) == ListText(w, formulas) + (")" + after)
    }

    ghost predicate ListExceeds(total: nat, formulas: seq<Unbound>)
      reads this
    {
      total > MAX_NODES || exists c :: c in formulas && nesting + ParserNesting(c) > MAX_DEPTH
    }

    // One argument of a list and the spaces after it.
    method ParseArgument(ghost want: Option<seq<Unbound>>, ghost after: string) returns (r: Parsed<Unbound>)
      requires Valid()
      requires want.Some? ==> FacingList(want.value, after)
      modifies this
      ensures Moved() && (r.Success? ==> WellFormed(r.value))
      ensures want.Some? && r.Success? ==>
        r.value == want.value[0] && Rest() == ListTail(w, want.value, after) && nodes == old(nodes) + Cost(w, want.value[0])
      ensures want.Some? && r.ParseError? ==> Exceeds(old(nodes) + Cost(w, want.value[0]), ParserNesting(want.value[0]))
      decreases |input| - position, 10
    {
      if want.Some? { ListSplits(w, want.value, after); }
      r := ParseLevel(3, if want.Some? then Some(ShapeOf(w, want.value[0], 3)) else None,
                           if want.Some? then ListTail(w, want.value, after) else after);
      SkipWhitespace();
    }

    method ParseTwo(ghost want: Option<seq<Unbound>>, ghost after: string) returns (r: Parsed<seq<Unbound>>)
      requires Valid()
      requires want.Some? ==> FacingList(want.value, after) && |want.value| == 2
      modifies this
      ensures Moved() && (r.Success? ==> |r.value| == 2 && forall c :: c in r.value ==> WellFormed(c))
      ensures want.Some? && r.Success? ==> r.value == want.value && Rest() == after && nodes == old(nodes) + TotalCost(w, want.value)
      ensures want.Some? && r.ParseError? ==> ListExceeds(old(nodes) + TotalCost(w, want.value), want.value)
      decreases |input| - position, 11
    {
      if want.Some? {
        ListContinues(rules, w, want.value, after);
        TwoOfList(w, want.value);
      }
      var left := ParseArgument(want, after);
      if left.ParseError? {
        return ParseError;
      }
      var ok := Expect(',');
      if !ok {
        return ParseError;
      }
      if want.Some? { LastOfList(w, want.value[1..], after); }
      var right := ParseArgument(if want.Some? then Some(want.value[1..]) else None, after);
      if right.ParseError? {
        return ParseError;
      }
      ok := Expect(')');
      if !ok {
        return ParseError;
      }
      r := Success([left.value, right.value]);
    }

    // The arguments up to and past the closing parenthesis; there may be none.
    method ParseArguments(ghost want: Option<seq<Unbound>>, ghost after: string) returns (r: Parsed<seq<Unbound>>)
      requires Valid()
      requires want.Some? ==> FacingList(want.value, after)
      modifies this
      ensures Moved() && (r.Success? ==> forall c :: c in r.value ==> WellFormed(c))
      ensures want.Some? && r.Success? ==> r.value == want.value && Rest() == after && nodes == old(nodes) + TotalCost(w, want.value)
      ensures want.Some? && r.ParseError? ==> ListExceeds(old(nodes) + TotalCost(w, want.value), want.value)
      decreases |input| - position, 14
    {
      SkipWhitespace();
      if want.Some? { ListStart(rules, w, want.value, after); }
      r := Success([]);
      if !StartsWith(Rest(), ')') {
        r := ParseSome(want, after);
      }
      if r.Success? {
        if want.Some? { SkipNothing(")" + after); }
        var ok := Expect(')');
        if !ok {
          r := ParseError;
        }
      }
    }

    // Arguments already read, and what is left of the list.
    ghost predicate InList(formulas: seq<Unbound>, after: string, read: seq<Unbound>, left: seq<Unbound>, total: nat)
      reads this
    {
      && Valid() && read + left == formulas && nodes + TotalCost(w, left) == total
      && (left != [] ==> FacingList(left, after))
      && (left == [] ==> Rest() == ")" + after)
    }

    // One or more arguments.
    method ParseSome(ghost want: Option<seq<Unbound>>, ghost after: string) returns (r: Parsed<seq<Unbound>>)
      requires Valid()
      requires want.Some? ==> FacingList(want.value, after)
      modifies this
      ensures Moved() && (r.Success? ==> forall c :: c in r.value ==> WellFormed(c))
      ensures want.Some? && r.Success? ==> r.value == want.value && Rest() == ")" + after && nodes == old(nodes) + TotalCost(w, want.value)
      ensures want.Some? && r.ParseError? ==> ListExceeds(old(nodes) + TotalCost(w, want.value), want.value)
      decreases |input| - position, 13
    {
      var arguments: seq<Unbound> := [];
      var more := true;
      ghost var left := if want.Some? then want.value else [];
      if want.Some? { assert arguments + left == want.value; }
      while more
        invariant Moved() && forall c :: c in arguments ==> WellFormed(c)
        invariant want.Some? ==> InList(want.value, after, arguments, left, old(nodes) + TotalCost(w, want.value))
        invariant want.Some? ==> (more <==> left != [])
        decreases more, |input| - position
      {
        var argument;
        argument, more := NextArgument(if want.Some? then Some(left) else None, after);
        if want.Some? { FirstOfAll(arguments, left, want.value); }
        if argument.ParseError? {
          return ParseError;
        }
        arguments := arguments + [argument.value];
        if want.Some? { left := left[1..]; }
      }
      r := Success(arguments);
    }

    lemma FirstOfAll(read: seq<Unbound>, left: seq<Unbound>, formulas: seq<Unbound>)
      requires left != [] && read + left == formulas
      ensures left[0] in formulas && (read + [left[0]]) + left[1..] == formulas
      ensures TotalCost(w, left) == Cost(w, left[0]) + TotalCost(w, left[1..])
    {
      assert formulas[|read|] == left[0];
    }

    method NextArgument(ghost want: Option<seq<Unbound>>, ghost after: string) returns (r: Parsed<Unbound>, more: bool)
      requires Valid()
      requires want.Some? ==> FacingList(want.value, after)
      modifies this
      ensures Moved() && (more ==> position > old(position)) && (r.Success? ==> WellFormed(r.value))
      ensures want.Some? && r.Success? ==>
        && r.value == want.value[0] && nodes == old(nodes) + Cost(w, want.value[0])
        && (more <==> |want.value| > 1)
        && (if more then FacingList(want.value[1..], after) else Rest() == ")" + after)
      ensures want.Some? && r.ParseError? ==> Exceeds(old(nodes) + Cost(w, want.value[0]), ParserNesting(want.value[0]))
      decreases |input| - position, 11
    {
      r := ParseArgument(want, after);
      more := StartsWith(Rest(), ',');
      if want.Some? {
        if |want.value| > 1 { ListContinues(rules, w, want.value, after); } else { LastOfList(w, want.value, after); }
      }
      if more {
        Advance(1);
      }
    }

    method ParseExtended(name: Extended, ghost want: Option<Unbound>, ghost after: string) returns (r: Parsed<Unbound>)
      requires Valid()
      requires want.Some? ==> FacingArguments(want.value, after, ExtendedWord(name))
      modifies this
      ensures Moved() && (r.Success? ==> WellFormed(r.value))
      ensures want.Some? && r.Success? ==> r.value == want.value && Rest() == after && nodes == old(nodes) + Cost(w, want.value)
      ensures want.Some? && r.ParseError? ==> Exceeds(old(nodes) + Cost(w, want.value), ParserNesting(want.value))
      decreases |input| - position, 15
    {
      if want.Some? {
        CallBudget(w, want.value);
        ListStart(rules, w, SubFormulas(want.value), after);
      }
      var ok := OpenCall();
      if !ok || AtNestingLimit() {
        return ParseError;
      }
      nesting := nesting + 1;
      var arguments := ParseArguments(if want.Some? then Some(SubFormulas(want.value)) else None, after);
      nesting := nesting - 1;
      if arguments.ParseError? {
        return ParseError;
      }
      if want.Some? { Rebuilds(want.value); }
      var built := BuildExtended(name, arguments.value);
      r := if built.Some? then Success(built.value) else ParseError;
    }

    // ---- Conditionals ----

    ghost predicate CriteriaExceed(total: nat, criteria: seq<UnboundCriterion>)
      reads this
    {
      total > MAX_NODES || exists k :: k in criteria && nesting + CriterionNesting(k) > MAX_DEPTH
    }

    // At the criteria of a conditional and what follows them.
    ghost predicate FacingCriteria(criteria: seq<UnboundCriterion>, parent: Unbound, last: string)
      reads this
    {
      && Valid() && Reads() && criteria != [] && AllBelong(criteria, parent) && (StartsWith(last, ')') || StartsWith(last, ','))
      && (forall k :: k in criteria ==> SoundCriterion(k))
      && SkipSpace(Rest()) == CriteriaText(w, criteria, parent) + last
    }

    // At one criterion and what follows it.
    ghost predicate FacingCriterion(k: UnboundCriterion, parent: Unbound, after: string)
      reads this
    {
      && Valid() && Reads() && SoundCriterion(k) && Belongs(k, parent) && Stops(after, 3)
      && SkipSpace(Rest()) == ColumnText(k.column) + (", " + (TestText(w, k, parent) + after))
    }

    method ParseConditional(called: ConditionalFunction, plural: bool, ghost want: Option<Unbound>, ghost after: string)
        returns (r: Parsed<Unbound>)
      requires Valid()
      requires want.Some? ==> FacingArguments(want.value, after, ConditionalWord(called, plural))
      modifies this
      ensures Moved() && (r.Success? ==> WellFormed(r.value))
      ensures want.Some? && r.Success? ==> r.value == want.value && Rest() == after && nodes == old(nodes) + Cost(w, want.value)
      ensures want.Some? && r.ParseError? ==> Exceeds(old(nodes) + Cost(w, want.value), ParserNesting(want.value))
      decreases |input| - position, 18
    {
      if want.Some? { ConditionalBudget(w, want.value); }
      var ok := OpenCall();
      if !ok || AtNestingLimit() {
        return ParseError;
      }
      nesting := nesting + 1;
      if plural {
        r := ParsePlural(called, want, after);
      } else {
        r := ParseSingular(called, want, after);
      }
      nesting := nesting - 1;
    }

    // Past the opening parenthesis of a conditional.
    ghost predicate FacingConditional(e: Unbound, after: string)
      reads this
    {
      && Valid() && Reads() && e.ConditionalOf? && WellFormed(e) && Ends(after)
      && Rest() == ArgumentText(w, e) + (")" + after)
    }

    method ParsePlural(called: ConditionalFunction, ghost want: Option<Unbound>, ghost after: string) returns (r: Parsed<Unbound>)
      requires Valid()
      requires want.Some? ==>
        FacingConditional(want.value, after) && !IsSingular(w, want.value) && called == FunctionFor(want.value.aggregate)
      modifies this
      ensures Moved() && (r.Success? ==> WellFormed(r.value))
      ensures want.Some? && r.Success? ==> r.value == want.value && Rest() == after && nodes == old(nodes) + Cost(w, want.value) - 1
      ensures want.Some? && r.ParseError? ==> Exceeds(old(nodes) + Cost(w, want.value) - 1, ParserNesting(want.value) - 1)
      decreases |input| - position, 17
    {
      var values: Option<Address> := None;
      if want.Some? {
        PluralText(w, want.value, after);
      }
      if called != CountFunction {
        var column := ParseValueColumn(
          if want.Some? then Some(want.value.aggregate.column) else None,
          if want.Some? then CriteriaText(w, want.value.criteria, want.value) + (")" + after) else after);
        if column.ParseError? {
          return ParseError;
        }
        values := Some(column.value);
      }
      var parsed := ParseCriteria(want, ")" + after);
      if parsed.ParseError? {
        return ParseError;
      }
      var ok := Expect(')');
      if !ok {
        return ParseError;
      }
      if want.Some? { AggregateRebuilds(want.value, values); }
      r := Success(ConditionalOf(AggregateFor(called, values, parsed.value), parsed.value));
      SoundConditional(r.value);
    }

    // SUMIF, AVERAGEIF and COUNTIF: one criterion, then perhaps a value column;
    // the value column defaults to the criterion's.
    method ParseSingular(called: ConditionalFunction, ghost want: Option<Unbound>, ghost after: string) returns (r: Parsed<Unbound>)
      requires Valid()
      requires want.Some? ==>
        && FacingConditional(want.value, after) && IsSingular(w, want.value) && called == FunctionFor(want.value.aggregate)
        && |want.value.criteria| == 1
      modifies this
      ensures Moved() && (r.Success? ==> WellFormed(r.value))
      ensures want.Some? && r.Success? ==> r.value == want.value && Rest() == after && nodes == old(nodes) + Cost(w, want.value) - 1
      ensures want.Some? && r.ParseError? ==> Exceeds(old(nodes) + Cost(w, want.value) - 1, ParserNesting(want.value) - 1)
      decreases |input| - position, 15
    {
      ghost var first: Option<UnboundCriterion>, tail := None, "";
      if want.Some? {
        SingularText(w, want.value, after);
        first := Some(want.value.criteria[0]);
        tail := ValueTail(w, want.value, after);
      }
      var criterion := ParseColumnCriterion(first, if want.Some? then want.value else NumberLiteral(Number(0)), tail);
      if criterion.ParseError? {
        return ParseError;
      }
      var values := ParseSingularValues(called, want, after);
      if values.ParseError? {
        return ParseError;
      }
      if want.Some? { AggregateRebuilds(want.value, values.value); }
      r := Success(ConditionalOf(AggregateFor(called, values.value, [criterion.value]), [criterion.value]));
      SoundConditional(r.value);
    }

    // The value column of a singular conditional, if there is one, and the
    // closing parenthesis.
    method ParseSingularValues(called: ConditionalFunction, ghost want: Option<Unbound>, ghost after: string)
        returns (r: Parsed<Option<Address>>)
      requires Valid()
      requires want.Some? ==>
        && want.value.ConditionalOf? && WellFormed(want.value) && IsSingular(w, want.value) && |want.value.criteria| == 1
        && called == FunctionFor(want.value.aggregate) && SkipSpace(Rest()) == ValueTail(w, want.value, after)
      modifies this
      ensures Moved() && (r.Success? && r.value.Some? ==> IsAddress(r.value.value) && called != CountFunction)
      ensures want.Some? && r.Success? ==> Rest() == after && nodes == old(nodes) + |WrittenValues(w, want.value)|
      ensures want.Some? && r.Success? ==>
        r.value == if WrittenValues(w, want.value) == [] then None else Some(want.value.aggregate.column)
      ensures want.Some? && r.ParseError? ==> old(nodes) + |WrittenValues(w, want.value)| > MAX_NODES
    {
      if want.Some? { SingularText(w, want.value, after); }
      SkipWhitespace();
      var values: Option<Address> := None;
      if StartsWith(Rest(), ',') {
        if called == CountFunction {
          return ParseError;
        }
        Advance(1);
        var column := ParseColumnArgument(if want.Some? then Some(want.value.aggregate.column) else None, ")" + after);
        if column.ParseError? {
          return ParseError;
        }
        values := Some(column.value);
      }
      var ok := Expect(')');
      r := if ok then Success(values) else ParseError;
    }

    // The value column and the comma after it.
    method ParseValueColumn(ghost want: Option<Address>, ghost rest: string) returns (r: Parsed<Address>)
      requires Valid()
      requires want.Some? ==> IsAddress(want.value) && SkipSpace(Rest()) == ColumnText(want.value) + (", " + rest)
      modifies this
      ensures Moved() && (r.Success? ==> IsAddress(r.value) && position > old(position))
      ensures want.Some? && r.Success? ==> r.value == want.value && Rest() == " " + rest && nodes == old(nodes) + 1
      ensures want.Some? && r.ParseError? ==> old(nodes) + 1 > MAX_NODES
    {
      r := ParseColumnArgument(want, ", " + rest);
      if r.Success? {
        if want.Some? {
          SkipNothing(", " + rest);
          assert (", " + rest)[1..] == " " + rest;
        }
        var ok := Expect(',');
        if !ok {
          r := ParseError;
        }
      }
    }

    ghost predicate InCriteria(
      criteria: seq<UnboundCriterion>, parent: Unbound, last: string, read: seq<UnboundCriterion>, left: seq<UnboundCriterion>, total: nat
    )
      reads this
    {
      && Valid() && read + left == criteria && AllBelong(left, parent) && nodes + CriteriaCost(w, left, parent) == total
      && (left != [] ==> FacingCriteria(left, parent, last))
      && (left == [] ==> Rest() == last)
    }

    // One or more criteria; `want` is the conditional they belong to.
    method ParseCriteria(ghost want: Option<Unbound>, ghost last: string) returns (r: Parsed<seq<UnboundCriterion>>)
      requires Valid()
      requires want.Some? ==>
        && want.value.ConditionalOf? && 1 <= |want.value.criteria| <= MAX_CRITERIA
        && FacingCriteria(want.value.criteria, want.value, last)
      requires want.Some? ==> StartsWith(last, ')')
      modifies this
      ensures Moved() && (r.Success? ==> 1 <= |r.value| <= MAX_CRITERIA && forall k :: k in r.value ==> SoundCriterion(k))
      ensures want.Some? && r.Success? ==>
        r.value == want.value.criteria && Rest() == last && nodes == old(nodes) + CriteriaCost(w, want.value.criteria, want.value)
      ensures want.Some? && r.ParseError? ==>
        CriteriaExceed(old(nodes) + CriteriaCost(w, want.value.criteria, want.value), want.value.criteria)
      decreases |input| - position, 15
    {
      var criteria: seq<UnboundCriterion> := [];
      var more := true;
      ghost var left := if want.Some? then want.value.criteria else [];
      ghost var total := if want.Some? then old(nodes) + CriteriaCost(w, want.value.criteria, want.value) else 0;
      if want.Some? { assert criteria + left == want.value.criteria; }
      while more
        invariant Moved() && |criteria| <= MAX_CRITERIA && forall k :: k in criteria ==> SoundCriterion(k)
        invariant !more ==> criteria != []
        invariant want.Some? ==> InCriteria(want.value.criteria, want.value, last, criteria, left, total)
        invariant want.Some? ==> (more <==> left != [])
        decreases more, |input| - position
      {
        if want.Some? { FirstOfCriteria(criteria, left, want.value); }
        if |criteria| == MAX_CRITERIA {
          return ParseError;
        }
        var criterion;
        criterion, more := NextCriterion(if want.Some? then Some(left) else None, if want.Some? then want.value else NumberLiteral(Number(0)), last);
        if criterion.ParseError? {
          return ParseError;
        }
        criteria := criteria + [criterion.value];
        if want.Some? { left := left[1..]; }
      }
      r := Success(criteria);
    }

    lemma FirstOfCriteria(read: seq<UnboundCriterion>, left: seq<UnboundCriterion>, parent: Unbound)
      requires parent.ConditionalOf? && left != [] && read + left == parent.criteria && AllBelong(left, parent)
      ensures left[0] in parent.criteria && (read + [left[0]]) + left[1..] == parent.criteria
      ensures AllBelong(left[1..], parent) && |read| < |parent.criteria|
      ensures CriteriaCost(w, left, parent) == TestCost(w, left[0], parent) + CriteriaCost(w, left[1..], parent)
    {
      assert parent.criteria[|read|] == left[0];
    }

    method NextCriterion(ghost want: Option<seq<UnboundCriterion>>, ghost parent: Unbound, ghost last: string)
        returns (r: Parsed<UnboundCriterion>, more: bool)
      requires Valid()
      requires want.Some? ==> FacingCriteria(want.value, parent, last) && StartsWith(last, ')')
      modifies this
      ensures Moved() && (more ==> position > old(position)) && (r.Success? ==> SoundCriterion(r.value))
      ensures want.Some? && r.Success? ==>
        && r.value == want.value[0] && nodes == old(nodes) + TestCost(w, want.value[0], parent)
        && (more <==> |want.value| > 1)
        && (if more then FacingCriteria(want.value[1..], parent, last) else Rest() == last)
      ensures want.Some? && r.ParseError? ==>
        Exceeds(old(nodes) + TestCost(w, want.value[0], parent), CriterionNesting(want.value[0]))
      decreases |input| - position, 14
    {
      if want.Some? { CriteriaSplit(w, want.value, parent, last); }
      r := ParseColumnCriterion(if want.Some? then Some(want.value[0]) else None, parent,
                                if want.Some? then CriteriaTail(w, want.value, parent, last) else last);
      SkipWhitespace();
      more := StartsWith(Rest(), ',');
      if want.Some? && |want.value| > 1 { CriteriaContinue(w, want.value, parent, last); }
      if more {
        Advance(1);
      }
    }

    method ParseColumnCriterion(ghost want: Option<UnboundCriterion>, ghost parent: Unbound, ghost after: string)
        returns (r: Parsed<UnboundCriterion>)
      requires Valid()
      requires want.Some? ==> FacingCriterion(want.value, parent, after)
      modifies this
      ensures Moved() && (r.Success? ==> SoundCriterion(r.value))
      ensures want.Some? && r.Success? ==>
        r.value == want.value && SkipSpace(Rest()) == SkipSpace(after) && nodes == old(nodes) + TestCost(w, want.value, parent)
      ensures want.Some? && r.ParseError? ==> Exceeds(old(nodes) + TestCost(w, want.value, parent), CriterionNesting(want.value))
      decreases |input| - position, 13
    {
      var column := ParseValueColumn(if want.Some? then Some(want.value.column) else None,
                                     if want.Some? then TestText(w, want.value, parent) + after else after);
      if column.ParseError? {
        return ParseError;
      }
      if want.Some? { CriterionStart(rules, w, want.value, parent, after); }
      var test := ParseCriterion(want, parent, after);
      if test.ParseError? {
        return ParseError;
      }
      r := Success(UnboundCriterion(column.value, test.value.0, test.value.1));
    }

    // At the test of a criterion.
    ghost predicate FacingTest(k: UnboundCriterion, parent: Unbound, after: string)
      reads this
    {
      && Valid() && Reads() && SoundCriterion(k) && Belongs(k, parent) && Stops(after, 3)
      && SkipSpace(Rest()) == TestText(w, k, parent) + after
    }

    method ParseCriterion(ghost want: Option<UnboundCriterion>, ghost parent: Unbound, ghost after: string)
        returns (r: Parsed<(ComparisonOperator, Option<Unbound>)>)
      requires Valid()
      requires want.Some? ==> FacingTest(want.value, parent, after)
      modifies this
      ensures Moved() && (r.Success? ==> SoundTest(r.value.0, r.value.1))
      ensures want.Some? && r.Success? ==>
        && r.value == (want.value.operator, want.value.operand) && SkipSpace(Rest()) == SkipSpace(after)
        && nodes == old(nodes) + TestCost(w, want.value, parent) - 1
      ensures want.Some? && r.ParseError? ==> Exceeds(old(nodes) + TestCost(w, want.value, parent) - 1, CriterionNesting(want.value))
      decreases |input| - position, 12
    {
      SkipWhitespace();
      if want.Some? { CriterionStart(rules, w, want.value, parent, after); }
      if StartsWith(Rest(), '"') {
        r := ParseCriterionLiteral(want, after);
        return;
      }
      var operand := ParseLevel(2, if want.Some? then Some(ShapeOf(w, want.value.operand.value, 2)) else None, after);
      r := if operand.Success? then Success((Equal, Some(operand.value))) else ParseError;
    }

    // A quoted test: a blank test or a comparison with a number.
    method ParseCriterionLiteral(ghost want: Option<UnboundCriterion>, ghost after: string)
        returns (r: Parsed<(ComparisonOperator, Option<Unbound>)>)
      requires Valid() && StartsWith(Rest(), '"')
      requires want.Some? ==>
        && Reads() && SoundCriterion(want.value) && IsQuoted(true, want.value) && Ends(after)
        && Rest() == "\"" + QuotedText(sp, want.value) + "\"" + after
      modifies this
      ensures Moved() && (r.Success? ==> SoundTest(r.value.0, r.value.1))
      ensures want.Some? ==> r == Success((want.value.operator, want.value.operand)) && Rest() == after && nodes == old(nodes)
    {
      if want.Some? { QuotedReads(rules, sp, want.value, after); }
      Advance(1);
      var text := ReadQuoted();
      if text.None? {
        return ParseError;
      }
      match ParseTest(rules, text.value) {
        case None => r := ParseError;
        case Some(test) =>
          if test.operand.TextOperand? && test.text == "" {
            r := Success((test.operator, None));
          } else if test.operand.NumberOperand? {
            match NewNumber(test.operand.value) {
              case None => r := ParseError;
              case Some(number) => r := Success((test.operator, Some(NumberLiteral(number))));
            }
          } else {
            r := ParseError;
          }
      }
    }

    // The text up to the closing quote, past it.
    method ReadQuoted() returns (text: Option<string>)
      requires Valid()
      modifies this`position
      ensures Moved()
      ensures match Unquote(old(Rest()))
        case None => text == None
        case Some((value, rest)) => text == Some(value) && Rest() == rest
    {
      var value := "";
      ghost var whole := Unquote(Rest());
      if whole.Some? { assert "" + whole.value.0 == whole.value.0; }
      while position < |input|
        invariant Moved()
        invariant whole == Prefixed(value, Unquote(Rest()))
        decreases |input| - position
      {
        var rest := Rest();
        if rest[0] == '"' {
          if |rest| > 1 && rest[1] == '"' {
            PrefixedStep(value, "\"", Unquote(rest[2..]));
            value := value + "\"";
            Advance(2);
          } else {
            assert value + "" == value;
            Advance(1);
            return Some(value);
          }
        } else {
          PrefixedStep(value, [rest[0]], Unquote(rest[1..]));
          value := value + [rest[0]];
          Advance(1);
        }
      }
      text := None;
    }

    method Parse(ghost want: Option<Unbound>) returns (r: Parsed<Unbound>)
      requires Valid() && position == 0 && nodes == 0 && nesting == 0
      requires want.Some? ==> Reads() && WellFormed(want.value) && input == TextAt(w, want.value, 3)
      modifies this
      ensures r.Success? ==> WellFormed(r.value)
      ensures want.Some? && r.Success? ==> r.value == want.value && Cost(w, want.value) <= MAX_NODES
      ensures want.Some? && r.ParseError? ==> Cost(w, want.value) > MAX_NODES || ParserNesting(want.value) > MAX_DEPTH
    {
      assert Rest() == input;
      if want.Some? {
        TextAtStart(rules, w, want.value, 3);
        SkipNothing(input);
        assert input == TextAt(w, want.value, 3) + "";
      }
      SkipWhitespace();
      if Rest() == [] {
        return ParseError;
      }
      r := ParseLevel(3, if want.Some? then Some(ShapeOf(w, want.value, 3)) else None, "");
      if r.ParseError? {
        return;
      }
      SkipWhitespace();
      if Rest() != [] {
        r := ParseError;
      }
    }
  }

  // ---- The whole parser ----

  // A writing of a formula fits when the nodes recorded for it, the depth of
  // the formula and the lengths of the text and of the canonical print do.
  ghost predicate WritingFits(w: Writing, e: Unbound) {
    && Cost(w, e) <= MAX_NODES && NodeCount(e) <= MAX_NODES && Depth(e) <= MAX_DEPTH
    && |TextAt(w, e, 3)| <= MAX_INPUT && |Format(w.sp, e)| <= MAX_INPUT
  }

  // parse_expression: the length limit, the parser, then the structure limits.
  // A legible writing of a formula is accepted, as that formula, exactly when it
  // fits.
  method ParseExpression(rules: Rules, sp: Spelling, input: string, ghost w: Writing, ghost want: Option<Unbound>)
      returns (r: Parsed<Unbound>)
    requires want.Some? ==> w.sp == sp && Readable(rules, w) && WellFormed(want.value) && input == TextAt(w, want.value, 3)
    ensures r.Success? ==> WellFormed(r.value) && |input| <= MAX_INPUT
    ensures r.Success? ==> NodeCount(r.value) <= MAX_NODES && Depth(r.value) <= MAX_DEPTH && |Format(sp, r.value)| <= MAX_INPUT
    ensures want.Some? ==> r == if WritingFits(w, want.value) then Success(want.value) else ParseError
  {
    if |input| > MAX_INPUT {
      return ParseError;
    }
    if want.Some? { NestingWithinDepth(want.value); }
    var parser := new Parser(rules, sp, w, input);
    r := parser.Parse(want);
    if r.ParseError? {
      return;
    }
    var breached := ValidateStructure(sp, r.value);
    if breached.Some? {
      r := ParseError;
    }
  }

  // The limits of a formula's canonical print.
  predicate PrintFits(sp: Spelling, e: Unbound) {
    ParserNodes(e) <= MAX_NODES && Depth(e) <= MAX_DEPTH && |Format(sp, e)| <= MAX_INPUT
  }

  lemma CanonicalFits(sp: Spelling, e: Unbound)
    requires WellFormed(e)
    ensures TextAt(CanonicalWriting(sp), e, 3) == Format(sp, e)
    ensures WritingFits(CanonicalWriting(sp), e) <==> PrintFits(sp, e)
  {
    CanonicalText(sp, e);
    NodesWithinParserNodes(e);
    assert !CanonicalWriting(sp).style(e).bare;
  }

  // Parsing the canonical print of a well-formed formula gives that formula,
  // exactly when the print fits.
  method PrintAndParse(rules: Rules, sp: Spelling, e: Unbound) returns (r: Parsed<Unbound>)
    requires Faithful(rules, sp) && WellFormed(e)
    ensures r == if PrintFits(sp, e) then Success(e) else ParseError
  {
    CanonicalIsLegible(sp);
    CanonicalFits(sp, e);
    r := ParseExpression(rules, sp, Format(sp, e), CanonicalWriting(sp), Some(e));
  }

  // The canonical print of whatever the parser accepts is accepted again, as
  // the same formula, exactly when the print's own node count fits.
  method Reparse(rules: Rules, sp: Spelling, input: string) returns (first: Parsed<Unbound>, second: Parsed<Unbound>)
    requires Faithful(rules, sp)
    ensures first.Success? ==> second == if ParserNodes(first.value) <= MAX_NODES then first else ParseError
  {
    first := ParseExpression(rules, sp, input, CanonicalWriting(sp), None);
    second := ParseError;
    if first.Success? {
      second := PrintAndParse(rules, sp, first.value);
    }
  }
}
